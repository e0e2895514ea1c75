/** Every run of mutator and collector steps: the step relation and its safety theorem. */
module GcRuns {
  import opened GcObjects
  import opened GcWeakPhases
  import opened GcTricolor
  import opened GcGenerations
  import opened GcCollections

  const EMPTY := State(map[], map[], [], [], [], [])

  /** A payload may hold only allocated references, and no keyless ephemeron value. */
  ghost predicate Publishable(s: State, o: Object) { PayloadAllocated(s.objects, o) && Inert(o) }

  /** A fresh slot in an Eden span, which may be new, pooled or active. */
  ghost predicate EdenSlot(s: State, r: Ref) {
    && r !in s.objects
    && (r.span in s.spans ==> s.spans[r.span].Small? && s.spans[r.span].space == Eden)
  }

  ghost predicate OldSlot(s: State, r: Ref) {
    && r !in s.objects
    && (r.span in s.spans ==> s.spans[r.span].Small? && s.spans[r.span].space == Old)
  }

  function WithSpan(spans: map<nat, Span>, id: nat, fallback: Span): map<nat, Span> {
    if id in spans then spans else spans[id := fallback]
  }

  /** Dirties the card or sets the owner bit of `source` and links its span. */
  function Remember(s: State, source: Ref): State
    requires source.span in s.spans
  {
    var span := match s.spans[source.span]
      case Small(space, n, cards) => Small(space, n, cards + {Card(source)})
      case Large(_) => Large(true);
    s.(spans := s.spans[source.span := span], remembered := Link(s.remembered, source.span))
  }

  ghost predicate AllocatedYoung(s: State, s': State, r: Ref, slotCount: nat, o: Object) {
    && EdenSlot(s, r) && Publishable(s, o)
    && s' == s.(objects := s.objects[r := o], spans := WithSpan(s.spans, r.span, Small(Eden, slotCount, {})),
                young := Link(s.young, r.span))
  }

  /** Old objects are born remembered: their initial edges need no barrier. */
  ghost predicate AllocatedOld(s: State, s': State, r: Ref, slotCount: nat, o: Object) {
    && OldSlot(s, r) && Publishable(s, o)
    && s' == Remember(s.(objects := s.objects[r := o], spans := WithSpan(s.spans, r.span, Small(Old, slotCount, {}))), r)
  }

  ghost predicate AllocatedLarge(s: State, s': State, r: Ref, o: Object) {
    && r !in s.objects && r.span !in s.spans && r.offset == LARGE_OBJECT_OFFSET && Publishable(s, o)
    && s' == Remember(s.(objects := s.objects[r := o], spans := s.spans[r.span := Large(false)]), r)
  }

  /** A payload store followed by the write barrier for the slots it changed. */
  ghost predicate Stored(s: State, s': State, source: Ref, o: Object, published: Object) {
    && source in s.objects && Publishable(s, o)
    && (forall i | 0 <= i < |o| :: o[i] in s.objects[source] || o[i] in published)
    && var stored := s.(objects := s.objects[source := o]);
    && if !IsYoung(s.spans, source) && HasYoungEdge(s.objects, s.spans, published)
       then source.span in s.spans && s' == Remember(stored, source)
       else s' == stored
  }

  ghost predicate RootsChanged(s: State, s': State) {
    s' == s.(roots := s'.roots) && forall r | r in s'.roots :: r in s.objects
  }

  ghost predicate PendingPopped(s: State, s': State) {
    s.pending != [] && s' == s.(pending := s.pending[1..])
  }

  ghost predicate Next(s: State, s': State) {
    || (exists r, n, o :: AllocatedYoung(s, s', r, n, o))
    || (exists r, n, o :: AllocatedOld(s, s', r, n, o))
    || (exists r, o :: AllocatedLarge(s, s', r, o))
    || (exists source, o, published :: Stored(s, s', source, o, published))
    || RootsChanged(s, s')
    || PendingPopped(s, s')
    || (exists marks, owners :: MinorCollected(s, s', marks, owners))
    || (exists marks, owners :: MajorCollected(s, s', marks, owners))
    || MarkAborted(s, s', MinorProblem(s)) || MarkAborted(s, s', MajorProblem(s))
  }

  // ----- Every step keeps the heap valid -----

  lemma AddingKeepsYoungEdges(s: State, s': State, o: Object)
    requires s.objects.Keys <= s'.objects.Keys && PayloadAllocated(s.objects, o)
    requires forall r | r in s.objects :: IsYoung(s'.spans, r) <==> IsYoung(s.spans, r)
    ensures HasYoungEdge(s'.objects, s'.spans, o) <==> HasYoungEdge(s.objects, s.spans, o)
  {
    forall i, r | 0 <= i < |o| && r in Refs(o[i])
      ensures YoungRef(s'.objects, s'.spans, r) <==> YoungRef(s.objects, s.spans, r)
    {
      assert Refs(o[i]) <= s.objects.Keys;
    }
  }

  lemma AllocatedYoungKeepsValid(s: State, s': State, r: Ref, n: nat, o: Object)
    requires Valid(s) && AllocatedYoung(s, s', r, n, o)
    ensures Valid(s')
  {
    hide HasYoungEdge;
    forall x | x in s.objects ensures PayloadAllocated(s'.objects, s.objects[x]) {
      assert PayloadAllocated(s.objects, s.objects[x]);
    }
    forall x | x in s'.objects && !IsYoung(s'.spans, x) && HasYoungEdge(s'.objects, s'.spans, s'.objects[x])
      ensures OnDirtyCard(s'.spans, x) && x.span in s'.remembered
    {
      AddingKeepsYoungEdges(s, s', s.objects[x]);
    }
  }

  /** Remembering a source changes neither generations nor other cards. */
  lemma RememberKeepsValid(s: State, r: Ref)
    requires NoDangling(s) && ChainsSound(s) && AllInert(s.objects) && r in s.objects
    requires forall x | x in s.objects && x != r && !IsYoung(s.spans, x) && HasYoungEdge(s.objects, s.spans, s.objects[x]) ::
               OnDirtyCard(s.spans, x) && x.span in s.remembered
    requires !IsYoung(s.spans, r)
    ensures Valid(Remember(s, r))
  {
    hide HasYoungEdge, NoDangling, AllInert;
    var s' := Remember(s, r);
    RememberFrame(s, r);
    forall x | x in s'.objects && !IsYoung(s'.spans, x) && HasYoungEdge(s'.objects, s'.spans, s'.objects[x])
      ensures OnDirtyCard(s'.spans, x) && x.span in s'.remembered
    {
      SameYoungEdge(s.objects, s.spans, s'.spans, s.objects[x]);
    }
  }

  lemma RememberFrame(s: State, r: Ref)
    requires r.span in s.spans
    ensures NoDangling(Remember(s, r)) <==> NoDangling(s)
    ensures forall id :: IsYoungSpan(Remember(s, r).spans, id) <==> IsYoungSpan(s.spans, id)
    ensures NoDuplicates(s.remembered) ==> NoDuplicates(Remember(s, r).remembered)
  {
  }

  lemma PublishedKeepsValid(s: State, stored: State, r: Ref)
    requires Valid(s) && r in stored.objects && Publishable(s, stored.objects[r]) && !IsYoung(stored.spans, r)
    requires stored.objects == s.objects[r := stored.objects[r]]
    requires stored == s.(objects := stored.objects, spans := stored.spans)
    requires r.span in stored.spans && s.spans.Keys <= stored.spans.Keys
    requires forall id | id in s.spans :: stored.spans[id] == s.spans[id]
    requires forall id | id in stored.spans && id !in s.spans :: id == r.span && !IsDirty(stored.spans[id])
    ensures Valid(Remember(stored, r))
  {
    hide HasYoungEdge;
    forall x | x in stored.objects ensures PayloadAllocated(stored.objects, stored.objects[x]) {
      assert PayloadAllocated(s.objects, stored.objects[x]);
    }
    forall x | x in stored.objects && x != r && !IsYoung(stored.spans, x)
               && HasYoungEdge(stored.objects, stored.spans, stored.objects[x])
      ensures OnDirtyCard(stored.spans, x) && x.span in stored.remembered
    {
      AddingKeepsYoungEdges(s, stored, s.objects[x]);
    }
    RememberKeepsValid(stored, r);
  }

  lemma AllocatedOldKeepsValid(s: State, s': State, r: Ref, n: nat, o: Object)
    requires Valid(s) && AllocatedOld(s, s', r, n, o)
    ensures Valid(s')
  {
    hide Valid;
    PublishedKeepsValid(s, s.(objects := s.objects[r := o], spans := WithSpan(s.spans, r.span, Small(Old, n, {}))), r);
  }

  lemma AllocatedLargeKeepsValid(s: State, s': State, r: Ref, o: Object)
    requires Valid(s) && AllocatedLarge(s, s', r, o)
    ensures Valid(s')
  {
    hide Valid;
    PublishedKeepsValid(s, s.(objects := s.objects[r := o], spans := s.spans[r.span := Large(false)]), r);
  }

  lemma YoungEdgeFrom(s: State, before: Object, published: Object, o: Object)
    requires forall i | 0 <= i < |o| :: o[i] in before || o[i] in published
    requires HasYoungEdge(s.objects, s.spans, o)
    ensures HasYoungEdge(s.objects, s.spans, before) || HasYoungEdge(s.objects, s.spans, published)
  {
    var i :| 0 <= i < |o| && exists r :: r in Refs(o[i]) && YoungRef(s.objects, s.spans, r);
    if o[i] in before {
      var j :| 0 <= j < |before| && before[j] == o[i];
    } else {
      var j :| 0 <= j < |published| && published[j] == o[i];
    }
  }

  lemma StoredKeepsValid(s: State, s': State, source: Ref, o: Object, published: Object)
    requires Valid(s) && Stored(s, s', source, o, published)
    ensures Valid(s')
  {
    hide HasYoungEdge;
    var stored := s.(objects := s.objects[source := o]);
    if !IsYoung(s.spans, source) && HasYoungEdge(s.objects, s.spans, published) {
      PublishedKeepsValid(s, stored, source);
    } else {
      UnbarrieredKeepsValid(s, source, o, published);
    }
  }

  lemma UnbarrieredKeepsValid(s: State, source: Ref, o: Object, published: Object)
    requires Valid(s) && source in s.objects && Publishable(s, o)
    requires forall i | 0 <= i < |o| :: o[i] in s.objects[source] || o[i] in published
    requires IsYoung(s.spans, source) || !HasYoungEdge(s.objects, s.spans, published)
    ensures Valid(s.(objects := s.objects[source := o]))
  {
    hide HasYoungEdge;
    var stored := s.(objects := s.objects[source := o]);
    assert stored.objects.Keys == s.objects.Keys;
    forall x | x in stored.objects ensures PayloadAllocated(stored.objects, stored.objects[x]) {
      assert PayloadAllocated(s.objects, stored.objects[x]);
    }
    forall x | x in stored.objects && !IsYoung(stored.spans, x) && HasYoungEdge(stored.objects, stored.spans, stored.objects[x])
      ensures OnDirtyCard(stored.spans, x) && x.span in stored.remembered
    {
      AddingKeepsYoungEdges(s, stored, stored.objects[x]);
      if x == source {
        YoungEdgeFrom(s, s.objects[source], published, o);
      }
    }
  }

  lemma PoppedKeepsValid(s: State, s': State)
    requires Valid(s) && PendingPopped(s, s')
    ensures Valid(s')
  {
    assert s.pending == [s.pending[0]] + s.pending[1..];
    RecordRefsAppend([s.pending[0]], s.pending[1..]);
  }

  lemma NextKeepsValid(s: State, s': State)
    requires Valid(s) && Next(s, s')
    ensures Valid(s')
  {
    hide Valid, AllocatedYoung, AllocatedOld, AllocatedLarge, Stored, MinorCollected, MajorCollected, Thinned, WeakPhasesStopped;
    if r, n, o :| AllocatedYoung(s, s', r, n, o) {
      AllocatedYoungKeepsValid(s, s', r, n, o);
    } else if r, n, o :| AllocatedOld(s, s', r, n, o) {
      AllocatedOldKeepsValid(s, s', r, n, o);
    } else if r, o :| AllocatedLarge(s, s', r, o) {
      AllocatedLargeKeepsValid(s, s', r, o);
    } else if source, o, published :| Stored(s, s', source, o, published) {
      StoredKeepsValid(s, s', source, o, published);
    } else if marks, owners :| MinorCollected(s, s', marks, owners) {
      CollectedIsSwept(s, s', marks, owners);
      MinorKeepsValid(s, s', marks, owners, s.young);
    } else if marks, owners :| MajorCollected(s, s', marks, owners) {
      CollectedIsSwept(s, s', marks, owners);
      MajorKeepsValid(s, s', marks, owners);
    } else if Thinned(s, s') {
      AbortKeepsValid(s, s');
    } else if PendingPopped(s, s') {
      PoppedKeepsValid(s, s');
    } else {
      RootsKeepValid(s, s');
    }
  }

  lemma RootsKeepValid(s: State, s': State)
    requires Valid(s) && RootsChanged(s, s')
    ensures Valid(s')
  {
  }

  /** Safety over whole runs: in every state no reference dangles and the barrier contract holds. */
  lemma {:induction false} RunsAreSafe(run: seq<State>, k: nat)
    requires k < |run| && run[0] == EMPTY
    requires forall i | 0 <= i < |run| - 1 :: Next(run[i], run[i + 1])
    ensures NoDangling(run[k]) && BarrierContract(run[k]) && Valid(run[k])
  {
    hide Next;
    if k > 0 {
      RunsAreSafe(run, k - 1);
      NextKeepsValid(run[k - 1], run[k]);
    }
  }
}
