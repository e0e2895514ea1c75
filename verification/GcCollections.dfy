/** The exact effect of a successful minor and major collection, and why both keep the heap valid. */
module GcCollections {
  import opened Options
  import opened GcObjects
  import opened GcLiveness
  import opened GcWeakPhases
  import opened GcTricolor
  import opened GcGenerations
  import GcSpans

  function LiveIn(marks: set<Ref>, id: nat): set<Ref> { set r | r in marks && r.span == id }

  // ----- Remembered-set rebuild, promotion cards, cohort transition: one span each -----

  /** Cards that still hold a source with a Young edge. */
  ghost function RebuiltCards(objects: map<Ref, Object>, spans: map<nat, Span>, id: nat): set<nat> {
    set r | r in objects && r.span == id && OnDirtyCard(spans, r) && HasYoungEdge(objects, spans, objects[r]) :: Card(r)
  }

  ghost predicate LargeHasYoungEdge(objects: map<Ref, Object>, spans: map<nat, Span>, id: nat) {
    exists r :: r in objects && r.span == id && OnDirtyCard(spans, r) && HasYoungEdge(objects, spans, objects[r])
  }

  ghost function RebuiltSpan(objects: map<Ref, Object>, spans: map<nat, Span>, id: nat): Span
    requires id in spans
  {
    match spans[id]
    case Small(Old, n, _) => Small(Old, n, RebuiltCards(objects, spans, id))
    case Small(_, _, _) => spans[id]
    case Large(_) => Large(LargeHasYoungEdge(objects, spans, id))
  }

  ghost function RebuiltSpans(objects: map<Ref, Object>, spans: map<nat, Span>, chain: seq<nat>): map<nat, Span> {
    map id | id in spans :: if id in chain then RebuiltSpan(objects, spans, id) else spans[id]
  }

  /** Cards of marked objects with a Young edge, written just before a possible promotion. */
  ghost function PromotionCards(objects: map<Ref, Object>, spans: map<nat, Span>, marks: set<Ref>, id: nat): set<nat> {
    set r | r in objects && r in marks && r.span == id && HasYoungEdge(objects, spans, objects[r]) :: Card(r)
  }

  ghost function PreparedSpan(objects: map<Ref, Object>, spans: map<nat, Span>, marks: set<Ref>, id: nat): Span
    requires id in spans
  {
    if IsYoungSpan(spans, id) && PromotionDue(spans[id].space, |LiveIn(marks, id)|, spans[id].slotCount)
    then Small(spans[id].space, spans[id].slotCount, PromotionCards(objects, spans, marks, id))
    else spans[id]
  }

  ghost function PreparedSpans(
    objects: map<Ref, Object>, spans: map<nat, Span>, chain: seq<nat>, marks: set<Ref>): map<nat, Span>
  {
    map id | id in spans :: if id in chain then PreparedSpan(objects, spans, marks, id) else spans[id]
  }

  /** What the debug assertion in `replace_promotion_cards` demands of a span about to get its cards. */
  predicate ReplacementAsserted(span: Span) { span.Small? && span.space.Survivor? }

  /** The assertion fails exactly for the Eden spans whose occupancy promotes them early. */
  lemma AssertionFailsIff(spans: map<nat, Span>, marks: set<Ref>, id: nat)
    requires IsYoungSpan(spans, id)
    ensures var live := |LiveIn(marks, id)|;
      PromotionDue(spans[id].space, live, spans[id].slotCount) && !ReplacementAsserted(spans[id])
      <==> spans[id].space == Eden && ShouldPromoteEarly(live, spans[id].slotCount)
  {
    hide LiveIn;
    EdenPromotesEarly(|LiveIn(marks, id)|, spans[id].slotCount);
  }

  /** An Eden span is due for promotion by occupancy alone. */
  lemma EdenPromotesEarly(live: nat, total: nat)
    ensures PromotionDue(Eden, live, total) <==> ShouldPromoteEarly(live, total)
  {
  }

  /** Twelve rooted objects in an Eden span of the largest size class, which has fifteen slots. */
  const CLASS: nat := 4096
  const TWELVE: seq<Ref> := seq(12, k requires 0 <= k < 12 => Ref(0, GcSpans.MINIMUM_SLOT_SIZE_BYTES + CLASS * k))
  const TWELVE_OF_FIFTEEN := State(
    map r | r in TWELVE :: [], map[0 := Small(Eden, GcSpans.SlotCount(CLASS), {})], [], [0], TWELVE, [])

  lemma TwelveSeeds()
    ensures Seeds(TWELVE_OF_FIFTEEN) == Elements(TWELVE) && |LiveIn(Elements(TWELVE), 0)| == 12
  {
    assert RecordRefs([]) == {};
    ElementsSize(TWELVE);
    assert LiveIn(Elements(TWELVE), 0) == Elements(TWELVE);
  }

  lemma TwelveValid()
    ensures Valid(TWELVE_OF_FIFTEEN)
  {
    TwelveSeeds();
    assert forall r | r in TWELVE_OF_FIFTEEN.objects :: TWELVE_OF_FIFTEEN.objects[r] == [];
  }

  lemma TwelveMarked()
    ensures LeastClosed(MinorProblem(TWELVE_OF_FIFTEEN), Elements(TWELVE))
  {
    hide Seeds, LiveIn;
    var p := MinorProblem(TWELVE_OF_FIFTEEN);
    TwelveSeeds();
    assert p.scope == Elements(TWELVE) && p.sources == {};
    assert forall r | r in p.objects :: p.objects[r] == [];
  }

  /** A valid heap, of a span the allocator lays out, whose minor collection trips the assertion. */
  lemma AssertionFailsExample()
    ensures GcSpans.IsSizeClass(CLASS) && TWELVE_OF_FIFTEEN.spans[0].slotCount == 15
    ensures forall k: nat | k < 12 :: GcSpans.OffsetForSlot(CLASS, k) == Some(TWELVE[k].offset)
    ensures Valid(TWELVE_OF_FIFTEEN) && LeastClosed(MinorProblem(TWELVE_OF_FIFTEEN), Elements(TWELVE))
    ensures PromotionDue(Eden, |LiveIn(Elements(TWELVE), 0)|, 15) && !ReplacementAsserted(TWELVE_OF_FIFTEEN.spans[0])
  {
    hide Valid, LeastClosed;
    TwelveSeeds();
    TwelveValid();
    TwelveMarked();
  }

  /** Ages a retained span or promotes it whole. */
  function AdvancedSpan(span: Span, live: nat): Span
    requires span.Small? && span.space != Old
  {
    if PromotionDue(span.space, live, span.slotCount) then Small(Old, span.slotCount, span.cards)
    else if span.space == Eden then Small(Survivor(1), span.slotCount, span.cards)
    else Small(Survivor(NextAge(span.space.age)), span.slotCount, span.cards)
  }

  /** An emptied span is pooled as a fresh Eden span or released; any other is aged or promoted. */
  ghost predicate SweptSpan(spans: map<nat, Span>, spans': map<nat, Span>, marks: set<Ref>, id: nat)
    requires IsYoungSpan(spans, id)
  {
    if LiveIn(marks, id) == {}
    then id in spans' ==> spans'[id] == Small(Eden, spans[id].slotCount, {})
    else id in spans' && spans'[id] == AdvancedSpan(spans[id], |LiveIn(marks, id)|)
  }

  ghost predicate SweptSpans(spans: map<nat, Span>, spans': map<nat, Span>, chain: seq<nat>, marks: set<Ref>) {
    && spans'.Keys <= spans.Keys
    && forall id | id in spans ::
         if id in chain && IsYoungSpan(spans, id) then SweptSpan(spans, spans', marks, id)
         else id in spans' && spans'[id] == spans[id]
  }

  ghost function Without(objects: map<Ref, Object>, dead: set<Ref>): map<Ref, Object> {
    map r | r in objects && r !in dead :: objects[r]
  }

  // ----- Whole collections -----

  ghost predicate MinorCollected(s: State, s': State, marks: set<Ref>, owners: seq<Ref>) {
    var p := MinorProblem(s);
    var dead := p.scope - marks;
    && LeastClosed(p, marks) && OwnerWorklist(p, marks, owners)
    && var objects := AfterWeakPhases(p, marks);
       var prepared := PreparedSpans(objects, RebuiltSpans(objects, s.spans, s.remembered), s.young, marks);
    && s'.objects == Without(objects, dead)
    && SweptSpans(prepared, s'.spans, s.young, marks)
    && NoDuplicates(s'.remembered) && NoDuplicates(s'.young)
    && (forall id :: id in s'.remembered <==> id in s'.spans && IsDirty(s'.spans[id]))
    && (forall id :: id in s'.young <==> id in s.young && IsYoungSpan(s'.spans, id) && LiveIn(marks, id) != {})
    && s'.roots == s.roots && s'.pending == s.pending + OwnerRecords(dead, s.objects, owners)
  }

  /**
   * What the survivors of a minor collection look like once the spans in `done` have been swept: the
   * dead objects left behind in other spans are not part of `s'`.
   */
  ghost predicate MinorSwept(s: State, s': State, marks: set<Ref>, owners: seq<Ref>, done: seq<nat>) {
    var p := MinorProblem(s);
    var dead := p.scope - marks;
    && LeastClosed(p, marks) && OwnerWorklist(p, marks, owners)
    && var objects := AfterWeakPhases(p, marks);
       var prepared := PreparedSpans(objects, RebuiltSpans(objects, s.spans, s.remembered), s.young, marks);
    && s'.objects == Without(objects, dead)
    && (forall id | id in done :: id in s.young)
    && SweptSpans(prepared, s'.spans, done, marks)
    && NoDuplicates(s'.remembered) && NoDuplicates(s'.young)
    && (forall id | id in s'.spans && IsDirty(s'.spans[id]) :: id in s'.remembered)
    && (forall id | id in s.young && IsYoungSpan(s'.spans, id) && LiveIn(marks, id) != {} :: id in s'.young)
    && s'.roots == s.roots && s'.pending == s.pending + OwnerRecords(dead, s.objects, owners)
  }

  ghost predicate MajorCollected(s: State, s': State, marks: set<Ref>, owners: seq<Ref>) {
    var p := MajorProblem(s);
    var dead := p.scope - marks;
    && LeastClosed(p, marks) && OwnerWorklist(p, marks, owners)
    && s'.objects == Without(AfterWeakPhases(p, marks), dead)
    && s'.spans == (map id | id in s.spans && LiveIn(marks, id) != {} :: s.spans[id])
    && s'.remembered == s.remembered && s'.young == s.young
    && s'.roots == s.roots && s'.pending == s.pending + OwnerRecords(dead, s.objects, owners)
  }

  /** What the survivors of a major collection look like, whichever emptied spans have been released. */
  ghost predicate MajorSwept(s: State, s': State, marks: set<Ref>, owners: seq<Ref>) {
    var p := MajorProblem(s);
    var dead := p.scope - marks;
    && LeastClosed(p, marks) && OwnerWorklist(p, marks, owners)
    && s'.objects == Without(AfterWeakPhases(p, marks), dead)
    && s'.spans.Keys <= s.spans.Keys && (forall id | id in s'.spans :: s'.spans[id] == s.spans[id])
    && (forall id | id in s.spans && LiveIn(marks, id) != {} :: id in s'.spans)
    && s'.remembered == s.remembered && s'.young == s.young
    && s'.roots == s.roots && s'.pending == s.pending + OwnerRecords(dead, s.objects, owners)
  }

  /** A completed collection has swept its whole chain. */
  lemma CollectedIsSwept(s: State, s': State, marks: set<Ref>, owners: seq<Ref>)
    ensures MinorCollected(s, s', marks, owners) ==> MinorSwept(s, s', marks, owners, s.young)
    ensures MajorCollected(s, s', marks, owners) ==> MajorSwept(s, s', marks, owners)
  {
    hide LeastClosed, OwnerWorklist, AfterWeakPhases, PreparedSpans, RebuiltSpans, SweptSpans, OwnerRecords, LiveIn;
  }

  /** What an aborted mark may do to validity: clear references and publish some live cleanup records. */
  ghost predicate Thinned(s: State, s': State) {
    && AllShrunk(s'.objects, s.objects)
    && s' == s.(objects := s'.objects, pending := s'.pending)
    && s.pending <= s'.pending
    && (forall rec | rec in s'.pending[|s.pending|..] ::
          rec.owner in s.objects
          && exists j :: 0 <= j < |s.objects[rec.owner]| && StrongTarget(s.objects[rec.owner][j]) == rec.held)
  }

  /** A mark that aborts leaves the heap alone, or it has completed and its weak phases have stopped at some slot. */
  ghost predicate MarkAborted(s: State, s': State, p: Problem) {
    && Thinned(s, s')
    && (s' == s || exists marks, owners :: WeakPhasesStopped(p, marks, owners, s'.objects, s'.pending[|s.pending|..]))
  }

  // ----- Validity -----

  lemma ShrunkInert(objects': map<Ref, Object>, objects: map<Ref, Object>)
    requires AllShrunk(objects', objects) && AllInert(objects)
    ensures AllInert(objects')
  {
    forall r, i | r in objects' && 0 <= i < |objects'[r]| ensures !Keyless(objects'[r][i]) {
      assert Shrunk(objects'[r][i], objects[r][i]) && !Keyless(objects[r][i]);
    }
  }

  lemma ShrunkYoungEdge(s: State, objects': map<Ref, Object>, r: Ref)
    requires AllShrunk(objects', s.objects) && r in s.objects
    requires HasYoungEdge(objects', s.spans, objects'[r])
    ensures HasYoungEdge(s.objects, s.spans, s.objects[r])
  {
    var i :| 0 <= i < |objects'[r]| && exists q :: q in Refs(objects'[r][i]) && YoungRef(objects', s.spans, q);
    assert Shrunk(objects'[r][i], s.objects[r][i]);
  }

  lemma RecordRefsAppend(a: seq<Record>, b: seq<Record>)
    ensures RecordRefs(a + b) == RecordRefs(a) + RecordRefs(b)
  {
    forall r | r in RecordRefs(b) ensures r in RecordRefs(a + b) {
      var i :| 0 <= i < |b| && r in {b[i].owner} + OptionRefs(b[i].held);
      assert (a + b)[|a| + i] == b[i];
    }
    forall r | r in RecordRefs(a) ensures r in RecordRefs(a + b) {
      var i :| 0 <= i < |a| && r in {a[i].owner} + OptionRefs(a[i].held);
      assert (a + b)[i] == a[i];
    }
  }

  lemma ShrunkAllocated(s: State, s': State)
    requires NoDangling(s) && AllShrunk(s'.objects, s.objects)
    ensures forall r | r in s'.objects :: PayloadAllocated(s'.objects, s'.objects[r])
  {
    forall r, i | r in s'.objects && 0 <= i < |s'.objects[r]| ensures Refs(s'.objects[r][i]) <= s'.objects.Keys {
      assert PayloadAllocated(s.objects, s.objects[r]);
      assert Shrunk(s'.objects[r][i], s.objects[r][i]);
    }
  }

  /** Every added record names a heap object and a value that object held. */
  lemma AddedAllocated(s: State, added: seq<Record>)
    requires NoDangling(s)
    requires forall rec | rec in added ::
      rec.owner in s.objects
      && exists j :: 0 <= j < |s.objects[rec.owner]| && StrongTarget(s.objects[rec.owner][j]) == rec.held
    ensures RecordRefs(added) <= s.objects.Keys
  {
    forall q | q in RecordRefs(added) ensures q in s.objects {
      var i :| 0 <= i < |added| && q in {added[i].owner} + OptionRefs(added[i].held);
      var x := added[i].owner;
      assert added[i] in added;
      var j :| 0 <= j < |s.objects[x]| && StrongTarget(s.objects[x][j]) == added[i].held;
      assert PayloadAllocated(s.objects, s.objects[x]);
    }
  }

  lemma AbortNoDangling(s: State, s': State)
    requires NoDangling(s) && Thinned(s, s')
    ensures NoDangling(s')
  {
    hide RecordRefs, PayloadAllocated, ObjectShrunk;
    ShrunkAllocated(s, s');
    var added := s'.pending[|s.pending|..];
    assert s'.pending == s.pending + added;
    RecordRefsAppend(s.pending, added);
    AddedAllocated(s, added);
  }

  lemma AbortKeepsContract(s: State, s': State)
    requires BarrierContract(s) && Thinned(s, s')
    ensures BarrierContract(s')
  {
    forall r | r in s'.objects && !IsYoung(s'.spans, r) && HasYoungEdge(s'.objects, s'.spans, s'.objects[r])
      ensures OnDirtyCard(s'.spans, r) && r.span in s'.remembered
    {
      ShrunkYoungEdge(s, s'.objects, r);
    }
  }

  /** A collection that aborts while marking leaves a valid heap. */
  lemma AbortKeepsValid(s: State, s': State)
    requires Valid(s) && Thinned(s, s')
    ensures Valid(s')
  {
    hide NoDangling, BarrierContract, AllInert;
    ShrunkInert(s'.objects, s.objects);
    AbortNoDangling(s, s');
    AbortKeepsContract(s, s');
  }

  /** Records queued by a completed mark name live objects. */
  lemma RecordsAllocated(p: Problem, marks: set<Ref>, owners: seq<Ref>)
    requires WellPosed(p) && NoDanglingReference(p) && Closed(p, marks) && OwnerWorklist(p, marks, owners)
    ensures RecordRefs(OwnerRecords(p.scope - marks, p.objects, owners)) <= p.objects.Keys - (p.scope - marks)
  {
    var records := OwnerRecords(p.scope - marks, p.objects, owners);
    OwnerRecordsLive(p, marks, owners);
    forall q | q in RecordRefs(records) ensures q in p.objects && q !in p.scope - marks {
      var i :| 0 <= i < |records| && q in {records[i].owner} + OptionRefs(records[i].held);
      assert RecordLive(p, marks, records[i]);
      var x := records[i].owner;
      var j :| 0 <= j < |p.objects[x]| && StrongTarget(p.objects[x][j]) == records[i].held;
      assert Included(p, marks, StrongTarget(p.objects[x][j]));
      assert Refs(p.objects[x][j]) <= p.objects.Keys;
    }
  }

  lemma MinorWellPosed(s: State)
    requires NoDangling(s)
    ensures WellPosed(MinorProblem(s)) && NoDanglingReference(MinorProblem(s))
  {
    DirtySourcesAreOld(s);
    forall r, i | r in s.objects && 0 <= i < |s.objects[r]| ensures Refs(s.objects[r][i]) <= s.objects.Keys {
      assert PayloadAllocated(s.objects, s.objects[r]);
    }
  }

  lemma MajorWellPosed(s: State)
    requires NoDangling(s)
    ensures WellPosed(MajorProblem(s)) && NoDanglingReference(MajorProblem(s))
  {
    forall r, i | r in s.objects && 0 <= i < |s.objects[r]| ensures Refs(s.objects[r][i]) <= s.objects.Keys {
      assert PayloadAllocated(s.objects, s.objects[r]);
    }
  }

  /** With inert payloads no live object names a dead one after the weak phases. */
  lemma InertSurvivorsClean(p: Problem, marks: set<Ref>)
    requires Closed(p, marks) && AllInert(p.objects)
    ensures SurvivorsClean(p, marks, AfterWeakPhases(p, marks))
  {
    assert forall r, i: nat | r in p.objects && i < |p.objects[r]| :: !Keyless(p.objects[r][i]);
    WeakClosureComplete(p, marks);
  }

  /** References kept by an object outside the dead set name objects outside the dead set. */
  lemma LiveRefs(p: Problem, marks: set<Ref>, r: Ref, i: nat)
    requires NoDanglingReference(p) && Closed(p, marks) && AllInert(p.objects)
    requires r in p.objects && (r in marks || r in p.sources) && i < |AfterWeakPhases(p, marks)[r]|
    ensures Refs(AfterWeakPhases(p, marks)[r][i]) <= p.objects.Keys - (p.scope - marks)
  {
    InertSurvivorsClean(p, marks);
    AfterWeakPhasesShrinks(p, marks);
    assert Shrunk(AfterWeakPhases(p, marks)[r][i], p.objects[r][i]);
  }

  // ----- A minor collection keeps the heap valid -----

  lemma MinorYoungBefore(s: State, s': State, marks: set<Ref>, owners: seq<Ref>, done: seq<nat>, id: nat)
    requires MinorSwept(s, s', marks, owners, done)
    ensures IsYoungSpan(s'.spans, id) ==> IsYoungSpan(s.spans, id)
  {
  }

  lemma MinorRefsKept(s: State, s': State, marks: set<Ref>, owners: seq<Ref>, done: seq<nat>, r: Ref, i: nat)
    requires Valid(s) && MinorSwept(s, s', marks, owners, done)
    requires r in s'.objects && i < |s'.objects[r]|
    ensures Refs(s'.objects[r][i]) <= s'.objects.Keys
  {
    hide SweptSpans, PreparedSpans, RebuiltSpans, OwnerRecords, LeastClosed;
    var p := MinorProblem(s);
    MinorWellPosed(s);
    assert Closed(p, marks) by { LeastIsClosed(p, marks); }
    AfterWeakPhasesShrinks(p, marks);
    if r in marks || r in p.sources {
      LiveRefs(p, marks, r, i);
    } else {
      CleanOldRefs(s, marks, r, i);
    }
  }

  lemma LeastIsClosed(p: Problem, marks: set<Ref>)
    requires LeastClosed(p, marks)
    ensures Closed(p, marks) && marks <= p.scope
  {
  }

  /** An unscanned Old object names no Young object at all. */
  lemma CleanOldRefs(s: State, marks: set<Ref>, r: Ref, i: nat)
    requires NoDangling(s) && BarrierContract(s)
    requires r in OldObjects(s) && r !in MinorProblem(s).sources
    requires i < |AfterWeakPhases(MinorProblem(s), marks)[r]|
    ensures Refs(AfterWeakPhases(MinorProblem(s), marks)[r][i]) <= OldObjects(s)
  {
    var p := MinorProblem(s);
    AfterWeakPhasesShrinks(p, marks);
    assert Shrunk(AfterWeakPhases(p, marks)[r][i], s.objects[r][i]);
    assert !HasYoungEdge(s.objects, s.spans, s.objects[r]);
    assert PayloadAllocated(s.objects, s.objects[r]);
    forall q | q in Refs(s.objects[r][i]) ensures q in OldObjects(s) {
      assert !YoungRef(s.objects, s.spans, q);
    }
  }

  lemma MinorNoDangling(s: State, s': State, marks: set<Ref>, owners: seq<Ref>, done: seq<nat>)
    requires Valid(s) && MinorSwept(s, s', marks, owners, done)
    ensures NoDangling(s')
  {
    hide SweptSpans, PreparedSpans, RebuiltSpans, OwnerRecords, LeastClosed, AfterWeakPhases;
    var p := MinorProblem(s);
    MinorWellPosed(s);
    LeastIsClosed(p, marks);
    forall r | r in s'.objects ensures PayloadAllocated(s'.objects, s'.objects[r]) {
      forall i | 0 <= i < |s'.objects[r]| ensures Refs(s'.objects[r][i]) <= s'.objects.Keys {
        MinorRefsKept(s, s', marks, owners, done, r, i);
      }
    }
    AfterWeakPhasesShrinks(p, marks);
    SeedsSurvive(p, marks);
    RecordsAllocated(p, marks, owners);
    RecordRefsAppend(s.pending, OwnerRecords(p.scope - marks, s.objects, owners));
  }

  lemma SeedsSurvive(p: Problem, marks: set<Ref>)
    requires NoDanglingReference(p) && Closed(p, marks)
    ensures p.seeds <= p.objects.Keys - (p.scope - marks)
  {
    forall r | r in p.seeds && r in p.scope ensures r in marks { assert r in p.seeds * p.scope; }
  }

  /** A surviving object with an edge that is Young after the sweep had one before it. */
  lemma MinorYoungEdgeBefore(s: State, s': State, marks: set<Ref>, owners: seq<Ref>, done: seq<nat>, r: Ref)
    requires Valid(s) && MinorSwept(s, s', marks, owners, done)
    requires r in s'.objects && HasYoungEdge(s'.objects, s'.spans, s'.objects[r])
    ensures HasYoungEdge(AfterWeakPhases(MinorProblem(s), marks), s.spans, s'.objects[r])
  {
    var o := s'.objects[r];
    var i :| 0 <= i < |o| && exists q :: q in Refs(o[i]) && YoungRef(s'.objects, s'.spans, q);
    var q :| q in Refs(o[i]) && YoungRef(s'.objects, s'.spans, q);
    MinorRefsKept(s, s', marks, owners, done, r, i);
    MinorYoungBefore(s, s', marks, owners, done, q.span);
    assert YoungRef(AfterWeakPhases(MinorProblem(s), marks), s.spans, q);
  }

  /** An object that was Old and still has a Young edge keeps a dirty card. */
  lemma MinorOldCovered(s: State, s': State, marks: set<Ref>, owners: seq<Ref>, done: seq<nat>, r: Ref)
    requires Valid(s) && MinorSwept(s, s', marks, owners, done)
    requires r in s'.objects && !IsYoung(s.spans, r)
    requires HasYoungEdge(AfterWeakPhases(MinorProblem(s), marks), s.spans, s'.objects[r])
    ensures OnDirtyCard(s'.spans, r)
  {
    hide LeastClosed, OwnerRecords, AfterWeakPhases, HasYoungEdge;
    var p := MinorProblem(s);
    var objects := AfterWeakPhases(p, marks);
    AfterWeakPhasesShrinks(p, marks);
    ShrunkYoungEdge(s, objects, r);
    assert OnDirtyCard(s.spans, r) && r.span in s.remembered && r.span in s.spans;
    var rebuilt := RebuiltSpans(objects, s.spans, s.remembered);
    assert rebuilt[r.span] == RebuiltSpan(objects, s.spans, r.span);
    assert OnDirtyCard(rebuilt, r);
    assert s'.spans[r.span] == rebuilt[r.span];
  }

  lemma PromotedBySweep(prepared: map<nat, Span>, spans': map<nat, Span>, done: seq<nat>, marks: set<Ref>, id: nat)
    requires SweptSpans(prepared, spans', done, marks) && IsYoungSpan(prepared, id) && LiveIn(marks, id) != {}
    ensures id in spans'
    ensures !IsYoungSpan(spans', id) ==>
      && PromotionDue(prepared[id].space, |LiveIn(marks, id)|, prepared[id].slotCount)
      && spans'[id] == Small(Old, prepared[id].slotCount, prepared[id].cards)
  {
    hide PromotionDue, LiveIn;
  }

  lemma PreparedForPromotion(objects: map<Ref, Object>, spans: map<nat, Span>, chain: seq<nat>, marks: set<Ref>, id: nat)
    requires IsYoungSpan(spans, id) && id in chain
    ensures var prepared := PreparedSpans(objects, spans, chain, marks);
      && IsYoungSpan(prepared, id) && prepared[id].space == spans[id].space && prepared[id].slotCount == spans[id].slotCount
      && (PromotionDue(spans[id].space, |LiveIn(marks, id)|, spans[id].slotCount) ==>
            prepared[id].cards == PromotionCards(objects, spans, marks, id))
  {
    hide PromotionDue, LiveIn, PromotionCards;
  }

  /** Before the sweep, a minor collection rewrites cards and nothing else about a span. */
  lemma PreparationKeepsSpace(objects: map<Ref, Object>, s: State, marks: set<Ref>)
    ensures var prepared := PreparedSpans(objects, RebuiltSpans(objects, s.spans, s.remembered), s.young, marks);
      && prepared.Keys == s.spans.Keys
      && forall id | id in prepared ::
           if s.spans[id].Large? then prepared[id].Large?
           else prepared[id] == Small(s.spans[id].space, s.spans[id].slotCount, prepared[id].cards)
  {
    hide RebuiltCards, PromotionCards, PromotionDue, LiveIn;
  }

  /** A promoted survivor with a Young edge sits on a card prepared before the sweep. */
  lemma MinorPromotedCovered(s: State, s': State, marks: set<Ref>, owners: seq<Ref>, done: seq<nat>, r: Ref)
    requires Valid(s) && MinorSwept(s, s', marks, owners, done)
    requires r in s'.objects && IsYoung(s.spans, r) && !IsYoung(s'.spans, r)
    requires HasYoungEdge(AfterWeakPhases(MinorProblem(s), marks), s.spans, s'.objects[r])
    ensures OnDirtyCard(s'.spans, r)
  {
    hide LeastClosed, OwnerRecords, AfterWeakPhases, OwnerWorklist, HasYoungEdge, PromotionDue, PreparedSpans, SweptSpans,
      NoDangling, BarrierContract, AllInert;
    var p := MinorProblem(s);
    var objects := AfterWeakPhases(p, marks);
    AfterWeakPhasesShrinks(p, marks);
    var rebuilt := RebuiltSpans(objects, s.spans, s.remembered);
    assert r in marks && r in LiveIn(marks, r.span) && r.span in s.young;
    assert rebuilt[r.span] == s.spans[r.span];
    SameYoungEdge(objects, s.spans, rebuilt, objects[r]);
    PreparedForPromotion(objects, rebuilt, s.young, marks, r.span);
    PromotedBySweep(PreparedSpans(objects, rebuilt, s.young, marks), s'.spans, done, marks, r.span);
    assert Card(r) in PromotionCards(objects, rebuilt, marks, r.span);
  }

  lemma SameYoungEdge(objects: map<Ref, Object>, a: map<nat, Span>, b: map<nat, Span>, o: Object)
    requires forall id :: IsYoungSpan(a, id) <==> IsYoungSpan(b, id)
    ensures HasYoungEdge(objects, a, o) <==> HasYoungEdge(objects, b, o)
  {
    forall r ensures YoungRef(objects, a, r) <==> YoungRef(objects, b, r) {
      assert IsYoungSpan(a, r.span) <==> IsYoungSpan(b, r.span);
    }
  }

  /** A successful minor collection re-establishes the Old-to-Young contract. */
  lemma MinorKeepsContract(s: State, s': State, marks: set<Ref>, owners: seq<Ref>, done: seq<nat>)
    requires Valid(s) && MinorSwept(s, s', marks, owners, done)
    ensures BarrierContract(s')
  {
    hide Valid, LeastClosed, OwnerRecords, AfterWeakPhases, HasYoungEdge, SweptSpans;
    forall r | r in s'.objects && !IsYoung(s'.spans, r) && HasYoungEdge(s'.objects, s'.spans, s'.objects[r])
      ensures OnDirtyCard(s'.spans, r) && r.span in s'.remembered
    {
      MinorYoungEdgeBefore(s, s', marks, owners, done, r);
      if IsYoung(s.spans, r) {
        MinorPromotedCovered(s, s', marks, owners, done, r);
      } else {
        MinorOldCovered(s, s', marks, owners, done, r);
      }
      assert IsDirty(s'.spans[r.span]);
    }
  }

  lemma MinorKeepsChains(s: State, s': State, marks: set<Ref>, owners: seq<Ref>, done: seq<nat>)
    requires Valid(s) && MinorSwept(s, s', marks, owners, done)
    ensures ChainsSound(s')
  {
    hide LeastClosed, OwnerRecords, NoDangling, BarrierContract, AllInert;
    var p := MinorProblem(s);
    AfterWeakPhasesShrinks(p, marks);
    forall r | r in s'.objects ensures r.span in s'.spans && (IsYoung(s'.spans, r) ==> r.span in s'.young) {
      assert r.span in s.spans;
      if IsYoung(s.spans, r) {
        assert r in LiveIn(marks, r.span);
      }
      MinorYoungBefore(s, s', marks, owners, done, r.span);
    }
  }

  lemma MinorKeepsValid(s: State, s': State, marks: set<Ref>, owners: seq<Ref>, done: seq<nat>)
    requires Valid(s) && MinorSwept(s, s', marks, owners, done)
    ensures Valid(s')
  {
    hide LeastClosed, OwnerRecords, NoDangling, BarrierContract, ChainsSound, SweptSpans, AfterWeakPhases;
    MinorNoDangling(s, s', marks, owners, done);
    MinorKeepsContract(s, s', marks, owners, done);
    MinorKeepsChains(s, s', marks, owners, done);
    AfterWeakPhasesShrinks(MinorProblem(s), marks);
    ShrunkInert(AfterWeakPhases(MinorProblem(s), marks), s.objects);
  }

  // ----- A major collection keeps the heap valid -----

  lemma MajorRefsKept(s: State, s': State, marks: set<Ref>, owners: seq<Ref>, r: Ref, i: nat)
    requires Valid(s) && MajorSwept(s, s', marks, owners)
    requires r in s'.objects && i < |s'.objects[r]|
    ensures Refs(s'.objects[r][i]) <= s'.objects.Keys
  {
    hide OwnerRecords, LeastClosed;
    var p := MajorProblem(s);
    MajorWellPosed(s);
    LeastIsClosed(p, marks);
    LiveRefs(p, marks, r, i);
  }

  lemma MajorNoDangling(s: State, s': State, marks: set<Ref>, owners: seq<Ref>)
    requires Valid(s) && MajorSwept(s, s', marks, owners)
    ensures NoDangling(s')
  {
    hide OwnerRecords, LeastClosed, AfterWeakPhases;
    var p := MajorProblem(s);
    MajorWellPosed(s);
    LeastIsClosed(p, marks);
    forall r | r in s'.objects ensures PayloadAllocated(s'.objects, s'.objects[r]) {
      forall i | 0 <= i < |s'.objects[r]| ensures Refs(s'.objects[r][i]) <= s'.objects.Keys {
        MajorRefsKept(s, s', marks, owners, r, i);
      }
    }
    AfterWeakPhasesShrinks(p, marks);
    SeedsSurvive(p, marks);
    RecordsAllocated(p, marks, owners);
    RecordRefsAppend(s.pending, OwnerRecords(p.scope - marks, s.objects, owners));
  }

  lemma MajorSpanKept(s: State, s': State, marks: set<Ref>, owners: seq<Ref>, r: Ref)
    requires MajorSwept(s, s', marks, owners) && r in s'.objects && r.span in s.spans
    ensures r.span in s'.spans && s'.spans[r.span] == s.spans[r.span] && r in marks
  {
    AfterWeakPhasesShrinks(MajorProblem(s), marks);
    assert r in LiveIn(marks, r.span);
  }

  /** Cards survive a major collection, which only removes edges. */
  lemma MajorKeepsContract(s: State, s': State, marks: set<Ref>, owners: seq<Ref>)
    requires Valid(s) && MajorSwept(s, s', marks, owners)
    ensures BarrierContract(s')
  {
    hide OwnerRecords, LeastClosed, AfterWeakPhases, HasYoungEdge, AllInert;
    var objects := AfterWeakPhases(MajorProblem(s), marks);
    AfterWeakPhasesShrinks(MajorProblem(s), marks);
    forall r | r in s'.objects && !IsYoung(s'.spans, r) && HasYoungEdge(s'.objects, s'.spans, s'.objects[r])
      ensures OnDirtyCard(s'.spans, r) && r.span in s'.remembered
    {
      MajorYoungEdgeBefore(s, s', marks, owners, r);
      ShrunkYoungEdge(s, objects, r);
      MajorSpanKept(s, s', marks, owners, r);
    }
  }

  lemma MajorYoungEdgeBefore(s: State, s': State, marks: set<Ref>, owners: seq<Ref>, r: Ref)
    requires Valid(s) && MajorSwept(s, s', marks, owners)
    requires r in s'.objects && HasYoungEdge(s'.objects, s'.spans, s'.objects[r])
    ensures HasYoungEdge(AfterWeakPhases(MajorProblem(s), marks), s.spans, s'.objects[r])
  {
    hide OwnerRecords, LeastClosed, AfterWeakPhases;
    var o := s'.objects[r];
    var i :| 0 <= i < |o| && exists q :: q in Refs(o[i]) && YoungRef(s'.objects, s'.spans, q);
    var q :| q in Refs(o[i]) && YoungRef(s'.objects, s'.spans, q);
    MajorRefsKept(s, s', marks, owners, r, i);
    assert YoungRef(AfterWeakPhases(MajorProblem(s), marks), s.spans, q);
  }

  lemma MajorKeepsValid(s: State, s': State, marks: set<Ref>, owners: seq<Ref>)
    requires Valid(s) && MajorSwept(s, s', marks, owners)
    ensures Valid(s')
  {
    hide LeastClosed, OwnerRecords, NoDangling, BarrierContract, AfterWeakPhases;
    MajorNoDangling(s, s', marks, owners);
    MajorKeepsContract(s, s', marks, owners);
    AfterWeakPhasesShrinks(MajorProblem(s), marks);
    ShrunkInert(AfterWeakPhases(MajorProblem(s), marks), s.objects);
    forall r | r in s'.objects ensures r.span in s'.spans && (IsYoung(s'.spans, r) ==> r.span in s'.young) {
      assert r in s.objects && r.span in s.spans;
      MajorSpanKept(s, s', marks, owners, r);
    }
  }
}
