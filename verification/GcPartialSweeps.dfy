/**
 * Sweeps that fail part-way. The mark has succeeded, some spans are swept, and dead objects remain in
 * the others, possibly naming swept ones. What stays valid is the heap without that garbage.
 */
module GcPartialSweeps {
  import opened GcObjects
  import opened GcLiveness
  import opened GcWeakPhases
  import opened GcTricolor
  import opened GcGenerations
  import opened GcCollections
  import opened GcRuns
  import opened GcGarbage

  /** The heap without the objects in `g`. */
  ghost function Trim(s: State, g: set<Ref>): State { s.(objects := Without(s.objects, g)) }

  /** Everything outside the garbage is a valid heap of its own, and the chains still cover all objects. */
  ghost predicate ValidOutside(s: State, g: set<Ref>) {
    g <= s.objects.Keys && Valid(Trim(s, g)) && ChainsSound(s)
  }

  lemma ValidWithoutGarbage(s: State)
    ensures ValidOutside(s, {}) <==> Valid(s)
  {
    assert Trim(s, {}) == s;
  }

  // ----- The failing steps -----

  /** A major sweep that dropped `dropped` of the dead objects and released some emptied spans. */
  ghost predicate MajorPartly(s: State, s': State, marks: set<Ref>, owners: seq<Ref>, dropped: set<Ref>) {
    var p := MajorProblem(s);
    var dead := p.scope - marks;
    && LeastClosed(p, marks) && OwnerWorklist(p, marks, owners) && dropped <= dead
    && s'.objects == Without(AfterWeakPhases(p, marks), dropped)
    && s'.spans.Keys <= s.spans.Keys && (forall id | id in s'.spans :: s'.spans[id] == s.spans[id])
    && (forall r | r in s'.objects && r.span in s.spans :: r.span in s'.spans)
    && s'.remembered == s.remembered && s'.young == s.young
    && s'.roots == s.roots && s'.pending == s.pending + OwnerRecords(dead, s.objects, owners)
  }

  /** A minor sweep that finished the spans in `done`, a prefix of the Young chain, before it failed. */
  ghost predicate MinorPartly(
    s: State, s': State, marks: set<Ref>, owners: seq<Ref>, done: seq<nat>, dropped: set<Ref>)
  {
    var p := MinorProblem(s);
    var dead := p.scope - marks;
    && LeastClosed(p, marks) && OwnerWorklist(p, marks, owners) && dropped <= dead
    && var objects := AfterWeakPhases(p, marks);
       var prepared := PreparedSpans(objects, RebuiltSpans(objects, s.spans, s.remembered), s.young, marks);
    && s'.objects == Without(objects, dropped)
    && (forall id | id in done :: id in s.young) && (forall r | r in dead && r.span in done :: r in dropped)
    && SweptSpans(prepared, s'.spans, done, marks)
    && NoDuplicates(s'.remembered) && (forall id | id in s'.spans && IsDirty(s'.spans[id]) :: id in s'.remembered)
    && NoDuplicates(s'.young)
    && (forall id | id in s.young && IsYoungSpan(s'.spans, id) && (LiveIn(marks, id) != {} || id !in done) :: id in s'.young)
    && s'.roots == s.roots && s'.pending == s.pending + OwnerRecords(dead, s.objects, owners)
  }

  /** The dead objects a partial sweep leaves. */
  ghost function Left(p: Problem, marks: set<Ref>, dropped: set<Ref>): set<Ref> { p.scope - marks - dropped }

  // ----- A major sweep over a heap with garbage -----

  lemma MajorSeparate(s: State, g: set<Ref>)
    requires ValidOutside(s, g)
    ensures Separate(MajorProblem(s), g) && TrimmedProblem(MajorProblem(s), g) == MajorProblem(Trim(s, g))
  {
    OutsideSeparate(s, g);
    assert s.objects.Keys - g == Trim(s, g).objects.Keys;
  }

  /** Roots, pending records and objects outside the garbage do not name it. */
  lemma OutsideSeparate(s: State, g: set<Ref>)
    requires ValidOutside(s, g)
    ensures Seeds(s) !! g && Seeds(s) == Seeds(Trim(s, g))
    ensures forall r, i | r in s.objects && r !in g && 0 <= i < |s.objects[r]| :: Refs(s.objects[r][i]) !! g
  {
    var t := Trim(s, g);
    forall r, i | r in s.objects && r !in g && 0 <= i < |s.objects[r]| ensures Refs(s.objects[r][i]) !! g {
      assert PayloadAllocated(t.objects, t.objects[r]);
      assert Refs(t.objects[r][i]) <= t.objects.Keys;
    }
  }

  /** Marks over a heap with garbage meet allocated references only, so they report none. */
  lemma MarkMeetsAllocated(s: State, g: set<Ref>, p: Problem)
    requires ValidOutside(s, g)
    requires p == MajorProblem(s) || (p == MinorProblem(s) && CleanGarbage(s, g))
    ensures forall r | Met(p, r) :: r in s.objects
  {
    hide Valid, Seeds, Forced;
    OutsideSeparate(s, g);
    if p == MajorProblem(s) {
      MajorSeparate(s, g);
    } else {
      MinorSeparate(s, g);
    }
    forall r | Met(p, r) ensures r in s.objects {
      if r in p.seeds {
        SeedsAllocated(s, g);
      } else {
        var x, i :| Traced(p, x) && 0 <= i < |p.objects[x]| && r in Refs(p.objects[x][i]);
        TracedOutside(p, g, x);
        OutsidePayload(s, g, x, i);
      }
    }
  }

  lemma SeedsAllocated(s: State, g: set<Ref>)
    requires ValidOutside(s, g)
    ensures Seeds(s) <= s.objects.Keys
  {
    hide BarrierContract, ChainsSound, AllInert, RecordRefs, PayloadAllocated;
    assert NoDangling(Trim(s, g));
  }

  lemma OutsidePayload(s: State, g: set<Ref>, x: Ref, i: nat)
    requires ValidOutside(s, g) && x in s.objects && x !in g && i < |s.objects[x]|
    ensures Refs(s.objects[x][i]) <= s.objects.Keys - g
  {
    hide BarrierContract, ChainsSound, AllInert, RecordRefs;
    var t := Trim(s, g);
    assert PayloadAllocated(t.objects, t.objects[x]);
    assert Refs(t.objects[x][i]) <= t.objects.Keys;
  }

  /** A mark that aborts changes nothing about what is valid. */
  lemma AbortKeepsOutside(s: State, g: set<Ref>, s': State, p: Problem, marks: set<Ref>)
    requires ValidOutside(s, g)
    requires p == MajorProblem(s) || (p == MinorProblem(s) && CleanGarbage(s, g))
    requires marks <= p.scope && Below(p, marks)
    requires AllShrunk(s'.objects, s.objects) && s' == s.(objects := s'.objects, pending := s'.pending)
    requires s.pending <= s'.pending && RecordsLive(p, marks, s'.pending[|s.pending|..])
    ensures ValidOutside(s', g)
  {
    hide Valid, Seeds, Below, ObjectShrunk, Separate;
    if p == MajorProblem(s) {
      MajorSeparate(s, g);
    } else {
      MinorSeparate(s, g);
    }
    assert AllShrunk(Trim(s', g).objects, Trim(s, g).objects);
    var added := s'.pending[|s.pending|..];
    forall rec | rec in added
      ensures rec.owner in Trim(s, g).objects
        && exists j :: 0 <= j < |s.objects[rec.owner]| && StrongTarget(s.objects[rec.owner][j]) == rec.held
    {
      var i :| 0 <= i < |added| && added[i] == rec;
      assert RecordLive(p, marks, added[i]);
      MarkedTraced(p, marks, rec.owner);
      TracedOutside(p, g, rec.owner);
    }
    assert Thinned(Trim(s, g), Trim(s', g));
    AbortKeepsValid(Trim(s, g), Trim(s', g));
  }

  /** A failed major sweep leaves the marked objects a valid heap: only dead ones can dangle. */
  lemma MajorPartlyKeeps(s: State, g: set<Ref>, s': State, marks: set<Ref>, owners: seq<Ref>, dropped: set<Ref>)
    requires ValidOutside(s, g) && MajorPartly(s, s', marks, owners, dropped)
    ensures marks !! g
    ensures ValidOutside(s', Left(MajorProblem(s), marks, dropped))
  {
    hide Valid, LeastClosed, OwnerRecords, AfterWeakPhases, OwnerWorklist, Separate, TrimmedProblem, Seeds;
    var p, left := MajorProblem(s), Left(MajorProblem(s), marks, dropped);
    MajorSeparate(s, g);
    SameMarks(p, g, marks);
    SameWeakPhases(p, g, marks, owners);
    AfterWeakPhasesShrinks(p, marks);
    MajorTrimmed(s, g, s', marks, owners, dropped);
    MajorKeepsValid(Trim(s, g), Trim(s', left), marks, owners);
    MajorChains(s, s', marks, owners, dropped);
  }

  lemma MajorTrimmed(s: State, g: set<Ref>, s': State, marks: set<Ref>, owners: seq<Ref>, dropped: set<Ref>)
    requires MajorPartly(s, s', marks, owners, dropped) && marks !! g && ChainsSound(s)
    requires Separate(MajorProblem(s), g) && TrimmedProblem(MajorProblem(s), g) == MajorProblem(Trim(s, g))
    requires LeastClosed(MajorProblem(Trim(s, g)), marks)
    ensures MajorSwept(Trim(s, g), Trim(s', Left(MajorProblem(s), marks, dropped)), marks, owners)
  {
    hide LeastClosed, OwnerRecords, AfterWeakPhases, OwnerWorklist, Separate, Closed;
    var p, left := MajorProblem(s), Left(MajorProblem(s), marks, dropped);
    SameWeakPhases(p, g, marks, owners);
    AfterWeakPhasesShrinks(p, marks);
    assert p.scope - g - marks == MajorProblem(Trim(s, g)).scope - marks;
    assert Without(Without(AfterWeakPhases(p, marks), dropped), left) == Without(AfterWeakPhases(p, marks), p.scope - marks);
    assert Without(Without(AfterWeakPhases(p, marks), g), p.scope - g - marks)
        == Without(AfterWeakPhases(p, marks), p.scope - marks);
    forall id | id in s.spans && LiveIn(marks, id) != {} ensures id in s'.spans {
      var r :| r in LiveIn(marks, id);
      MarkedRemain(p, marks, dropped, r);
    }
  }

  lemma MarkedRemain(p: Problem, marks: set<Ref>, dropped: set<Ref>, r: Ref)
    requires LeastClosed(p, marks) && r in marks && dropped <= p.scope - marks && p.scope <= p.objects.Keys
    ensures r in Without(AfterWeakPhases(p, marks), dropped)
  {
  }

  lemma MajorChains(s: State, s': State, marks: set<Ref>, owners: seq<Ref>, dropped: set<Ref>)
    requires ChainsSound(s) && MajorPartly(s, s', marks, owners, dropped)
    ensures ChainsSound(s') && Left(MajorProblem(s), marks, dropped) <= s'.objects.Keys
  {
    hide LeastClosed, OwnerRecords, OwnerWorklist;
    AfterWeakPhasesShrinks(MajorProblem(s), marks);
  }

  /** A completed major collection is the sweep that dropped everything dead: no garbage remains. */
  lemma MajorRecovers(s: State, g: set<Ref>, s': State, marks: set<Ref>, owners: seq<Ref>)
    requires ValidOutside(s, g) && MajorCollected(s, s', marks, owners)
    ensures MajorPartly(s, s', marks, owners, MajorProblem(s).scope - marks) && Valid(s')
  {
    hide Valid, LeastClosed, OwnerRecords, OwnerWorklist;
    var p := MajorProblem(s);
    var dead := p.scope - marks;
    AfterWeakPhasesShrinks(p, marks);
    forall r | r in s'.objects && r.span in s.spans ensures r.span in s'.spans {
      assert r in LiveIn(marks, r.span);
    }
    MajorPartlyKeeps(s, g, s', marks, owners, dead);
    assert Left(p, marks, dead) == {};
    ValidWithoutGarbage(s');
  }

  /** The weak phases of a major collection do not touch dead objects. */
  lemma LeftUntouched(s: State, s': State, marks: set<Ref>, owners: seq<Ref>, dropped: set<Ref>, r: Ref)
    requires MajorPartly(s, s', marks, owners, dropped) && r in Left(MajorProblem(s), marks, dropped)
    ensures r in s'.objects && s'.objects[r] == s.objects[r] && s'.objects.Keys == s.objects.Keys - dropped
  {
    hide LeastClosed, OwnerRecords, OwnerWorklist, IsWeakOwner, ClearObject, FinalizeObject;
    AfterWeakPhasesShrinks(MajorProblem(s), marks);
  }

  lemma OutsideAllocated(s: State, g: set<Ref>)
    requires ValidOutside(s, g)
    ensures NoDangling(s) <==> forall r | r in g :: PayloadAllocated(s.objects, s.objects[r])
  {
    hide BarrierContract, ChainsSound, AllInert, RecordRefs;
    var t := Trim(s, g);
    forall r | r in s.objects && r !in g ensures PayloadAllocated(s.objects, s.objects[r]) {
      assert PayloadAllocated(t.objects, t.objects[r]);
      assert forall i | 0 <= i < |t.objects[r]| :: Refs(t.objects[r][i]) <= t.objects.Keys;
    }
  }

  /** No object `r` left behind names a dropped one. */
  ghost predicate LeftClean(s: State, left: set<Ref>, dropped: set<Ref>) {
    forall r, i | r in left && r in s.objects && 0 <= i < |s.objects[r]| :: Refs(s.objects[r][i]) !! dropped
  }

  /** A failed major sweep leaves no dangling reference exactly when no dead object left behind names a dropped one. */
  lemma DanglingIff(s: State, s': State, marks: set<Ref>, owners: seq<Ref>, dropped: set<Ref>)
    requires Valid(s) && MajorPartly(s, s', marks, owners, dropped)
    ensures NoDangling(s') <==> LeftClean(s, Left(MajorProblem(s), marks, dropped), dropped)
  {
    hide LeastClosed, OwnerRecords, OwnerWorklist, AfterWeakPhases, BarrierContract, ChainsSound, AllInert, ValidOutside, MajorPartly;
    var left := Left(MajorProblem(s), marks, dropped);
    ValidWithoutGarbage(s);
    MajorPartlyKeeps(s, {}, s', marks, owners, dropped);
    OutsideAllocated(s', left);
    forall r | r in left
      ensures r in s'.objects && r in s.objects
      ensures PayloadAllocated(s'.objects, s'.objects[r]) <==>
        forall i | 0 <= i < |s.objects[r]| :: Refs(s.objects[r][i]) !! dropped
    {
      LeftUntouched(s, s', marks, owners, dropped, r);
      AllocatedIffUndropped(s, s'.objects, dropped, r);
    }
  }

  lemma AllocatedIffUndropped(s: State, objects: map<Ref, Object>, dropped: set<Ref>, r: Ref)
    requires NoDangling(s) && r in s.objects && objects.Keys == s.objects.Keys - dropped
    ensures PayloadAllocated(objects, s.objects[r]) <==> forall i | 0 <= i < |s.objects[r]| :: Refs(s.objects[r][i]) !! dropped
  {
    assert PayloadAllocated(s.objects, s.objects[r]);
    forall i | 0 <= i < |s.objects[r]| ensures Refs(s.objects[r][i]) <= objects.Keys <==> Refs(s.objects[r][i]) !! dropped {
      assert Refs(s.objects[r][i]) <= s.objects.Keys;
    }
  }

  // ----- A minor sweep over a heap with garbage -----

  /** No garbage sits where a minor mark looks for sources. */
  ghost predicate CleanGarbage(s: State, g: set<Ref>) { MinorProblem(s).sources !! g }

  lemma MinorSeparate(s: State, g: set<Ref>)
    requires ValidOutside(s, g) && CleanGarbage(s, g)
    ensures Separate(MinorProblem(s), g) && TrimmedProblem(MinorProblem(s), g) == MinorProblem(Trim(s, g))
  {
    hide Valid, Seeds;
    var p, t := MinorProblem(s), Trim(s, g);
    OutsideSeparate(s, g);
    assert YoungObjects(s) - g == YoungObjects(t);
    assert DirtySources(s.objects, s.spans, s.remembered) == DirtySources(t.objects, t.spans, t.remembered);
  }

  /** Payloads without garbage references have the same Young edges in the trimmed heap. */
  lemma SameEdges(objects: map<Ref, Object>, g: set<Ref>, spans: map<nat, Span>, o: Object)
    requires forall i | 0 <= i < |o| :: Refs(o[i]) !! g
    ensures HasYoungEdge(Without(objects, g), spans, o) <==> HasYoungEdge(objects, spans, o)
  {
    forall i, r | 0 <= i < |o| && r in Refs(o[i])
      ensures YoungRef(Without(objects, g), spans, r) <==> YoungRef(objects, spans, r)
    {
    }
  }

  lemma SameRebuilt(objects: map<Ref, Object>, g: set<Ref>, spans: map<nat, Span>, chain: seq<nat>)
    requires forall r, i | r in objects && r !in g && 0 <= i < |objects[r]| :: Refs(objects[r][i]) !! g
    requires DirtySources(objects, spans, chain) !! g
    ensures RebuiltSpans(Without(objects, g), spans, chain) == RebuiltSpans(objects, spans, chain)
  {
    hide HasYoungEdge;
    var trimmed := Without(objects, g);
    forall r | r in trimmed ensures HasYoungEdge(trimmed, spans, trimmed[r]) <==> HasYoungEdge(objects, spans, objects[r]) {
      SameEdges(objects, g, spans, objects[r]);
    }
    forall id | id in spans && id in chain ensures RebuiltSpan(trimmed, spans, id) == RebuiltSpan(objects, spans, id) {
      SameRebuiltSpan(objects, g, spans, chain, id);
    }
  }

  lemma SameRebuiltSpan(objects: map<Ref, Object>, g: set<Ref>, spans: map<nat, Span>, chain: seq<nat>, id: nat)
    requires id in spans && id in chain && DirtySources(objects, spans, chain) !! g
    requires forall r | r in Without(objects, g) ::
      HasYoungEdge(Without(objects, g), spans, objects[r]) <==> HasYoungEdge(objects, spans, objects[r])
    ensures RebuiltSpan(Without(objects, g), spans, id) == RebuiltSpan(objects, spans, id)
  {
    hide HasYoungEdge, OnDirtyCard;
    var trimmed := Without(objects, g);
    forall r | r in objects && r.span == id && OnDirtyCard(spans, r) ensures r in trimmed {
      assert r in DirtySources(objects, spans, chain);
    }
    assert RebuiltCards(trimmed, spans, id) == RebuiltCards(objects, spans, id);
    assert LargeHasYoungEdge(trimmed, spans, id) <==> LargeHasYoungEdge(objects, spans, id);
  }

  lemma SamePrepared(objects: map<Ref, Object>, g: set<Ref>, spans: map<nat, Span>, chain: seq<nat>, marks: set<Ref>)
    requires forall r, i | r in objects && r !in g && 0 <= i < |objects[r]| :: Refs(objects[r][i]) !! g
    requires marks !! g
    ensures PreparedSpans(Without(objects, g), spans, chain, marks) == PreparedSpans(objects, spans, chain, marks)
  {
    hide HasYoungEdge, PromotionDue;
    var trimmed := Without(objects, g);
    forall r | r in trimmed ensures HasYoungEdge(trimmed, spans, trimmed[r]) <==> HasYoungEdge(objects, spans, objects[r]) {
      SameEdges(objects, g, spans, objects[r]);
    }
    forall id ensures PromotionCards(trimmed, spans, marks, id) == PromotionCards(objects, spans, marks, id) {
    }
  }

  /** Garbage once a minor sweep has stopped: the dead left in unswept spans, and older garbage. */
  ghost function MinorGarbage(s: State, g: set<Ref>, marks: set<Ref>, dropped: set<Ref>): set<Ref> {
    Left(MinorProblem(s), marks, dropped) + g * OldObjects(s)
  }

  /** A failed minor sweep leaves the survivors a valid heap, and so does a completed one over clean garbage. */
  lemma MinorPartlyKeeps(
    s: State, g: set<Ref>, s': State, marks: set<Ref>, owners: seq<Ref>, done: seq<nat>, dropped: set<Ref>)
    requires ValidOutside(s, g) && CleanGarbage(s, g) && MinorPartly(s, s', marks, owners, done, dropped)
    ensures marks !! g
    ensures ValidOutside(s', MinorGarbage(s, g, marks, dropped))
  {
    hide Valid, LeastClosed, OwnerRecords, AfterWeakPhases, OwnerWorklist, Separate, TrimmedProblem, Seeds, SweptSpans,
      PreparedSpans, RebuiltSpans, MinorProblem;
    var p, left := MinorProblem(s), MinorGarbage(s, g, marks, dropped);
    MinorSeparate(s, g);
    SameMarks(p, g, marks);
    MinorTrimmed(s, g, s', marks, owners, done, dropped);
    MinorKeepsValid(Trim(s, g), Trim(s', left), marks, owners, done);
    MinorChains(s, g, s', marks, owners, done, dropped);
  }

  lemma MinorTrimmed(
    s: State, g: set<Ref>, s': State, marks: set<Ref>, owners: seq<Ref>, done: seq<nat>, dropped: set<Ref>)
    requires ValidOutside(s, g) && MinorPartly(s, s', marks, owners, done, dropped) && marks !! g && CleanGarbage(s, g)
    requires Separate(MinorProblem(s), g) && TrimmedProblem(MinorProblem(s), g) == MinorProblem(Trim(s, g))
    requires LeastClosed(MinorProblem(Trim(s, g)), marks)
    ensures MinorSwept(Trim(s, g), Trim(s', MinorGarbage(s, g, marks, dropped)), marks, owners, done)
  {
    hide Valid, LeastClosed, OwnerRecords, AfterWeakPhases, OwnerWorklist, Closed, SweptSpans, PreparedSpans,
      RebuiltSpans, Seeds;
    var p, left := MinorProblem(s), MinorGarbage(s, g, marks, dropped);
    var objects := AfterWeakPhases(p, marks);
    SameWeakPhases(p, g, marks, owners);
    AfterWeakPhasesShrinks(p, marks);
    OutsideSeparate(s, g);
    forall r, i | r in objects && r !in g && 0 <= i < |objects[r]| ensures Refs(objects[r][i]) !! g {
      assert ObjectShrunk(objects[r], s.objects[r]);
      ShrunkSlot(objects[r], s.objects[r], i);
    }
    assert DirtySources(objects, s.spans, s.remembered) == p.sources;
    SameRebuilt(objects, g, s.spans, s.remembered);
    SamePrepared(objects, g, RebuiltSpans(objects, s.spans, s.remembered), s.young, marks);
    TrimmedSurvivors(p, objects, g, marks, dropped);
    assert p.scope - g - marks == MinorProblem(Trim(s, g)).scope - marks;
  }

  lemma TrimmedSurvivors(p: Problem, objects: map<Ref, Object>, g: set<Ref>, marks: set<Ref>, dropped: set<Ref>)
    requires objects.Keys == p.objects.Keys && marks !! g && dropped <= p.scope - marks
    ensures Without(Without(objects, dropped), p.scope - marks - dropped + g * (p.objects.Keys - p.scope))
         == Without(Without(objects, g), p.scope - g - marks)
  {
  }

  lemma PreparedGenerations(objects: map<Ref, Object>, spans: map<nat, Span>, chain: seq<nat>, young: seq<nat>, marks: set<Ref>)
    ensures var prepared := PreparedSpans(objects, RebuiltSpans(objects, spans, chain), young, marks);
      prepared.Keys == spans.Keys && forall id :: IsYoungSpan(prepared, id) <==> IsYoungSpan(spans, id)
  {
    hide RebuiltCards, PromotionCards, LargeHasYoungEdge, PromotionDue;
  }

  /** A span survives the sweep unless it was swept and nothing in it was marked, and never becomes Young. */
  lemma SpanSurvives(prepared: map<nat, Span>, spans': map<nat, Span>, done: seq<nat>, marks: set<Ref>, id: nat)
    requires SweptSpans(prepared, spans', done, marks)
    ensures id in prepared && (id !in done || !IsYoungSpan(prepared, id) || LiveIn(marks, id) != {}) ==> id in spans'
    ensures IsYoungSpan(spans', id) ==> IsYoungSpan(prepared, id)
  {
    hide PromotionDue, LiveIn;
  }

  lemma MinorChains(
    s: State, g: set<Ref>, s': State, marks: set<Ref>, owners: seq<Ref>, done: seq<nat>, dropped: set<Ref>)
    requires g <= s.objects.Keys && ChainsSound(s) && MinorPartly(s, s', marks, owners, done, dropped)
    ensures ChainsSound(s') && MinorGarbage(s, g, marks, dropped) <= s'.objects.Keys
  {
    hide OwnerRecords, OwnerWorklist, AfterWeakPhases, LeastClosed, PreparedSpans, RebuiltSpans, SweptSpans;
    var p := MinorProblem(s);
    var objects := AfterWeakPhases(p, marks);
    AfterWeakPhasesShrinks(p, marks);
    var prepared := PreparedSpans(objects, RebuiltSpans(objects, s.spans, s.remembered), s.young, marks);
    PreparedGenerations(objects, s.spans, s.remembered, s.young, marks);
    forall r | r in s'.objects ensures r.span in s'.spans && (IsYoung(s'.spans, r) ==> r.span in s'.young) {
      assert r in s.objects && r.span in s.spans;
      SpanSurvives(prepared, s'.spans, done, marks, r.span);
      if IsYoung(s.spans, r) && r.span in done {
        assert r in LiveIn(marks, r.span);
      }
    }
  }

  /** The weak phases of a minor collection do not touch dead objects either. */
  lemma YoungLeftUntouched(
    s: State, s': State, marks: set<Ref>, owners: seq<Ref>, done: seq<nat>, dropped: set<Ref>, r: Ref)
    requires MinorPartly(s, s', marks, owners, done, dropped) && r in Left(MinorProblem(s), marks, dropped)
    ensures r in s'.objects && s'.objects[r] == s.objects[r] && s'.objects.Keys == s.objects.Keys - dropped
  {
    hide LeastClosed, OwnerRecords, OwnerWorklist, IsWeakOwner, ClearObject, FinalizeObject, PreparedSpans, RebuiltSpans,
      SweptSpans;
    AfterWeakPhasesShrinks(MinorProblem(s), marks);
  }

  /** A failed minor sweep dangles under the same condition. */
  lemma MinorDanglingIff(s: State, s': State, marks: set<Ref>, owners: seq<Ref>, done: seq<nat>, dropped: set<Ref>)
    requires Valid(s) && MinorPartly(s, s', marks, owners, done, dropped)
    ensures NoDangling(s') <==> LeftClean(s, Left(MinorProblem(s), marks, dropped), dropped)
  {
    hide LeastClosed, OwnerRecords, OwnerWorklist, AfterWeakPhases, BarrierContract, ChainsSound, AllInert, ValidOutside, MinorPartly;
    var left := Left(MinorProblem(s), marks, dropped);
    ValidWithoutGarbage(s);
    MinorPartlyKeeps(s, {}, s', marks, owners, done, dropped);
    assert MinorGarbage(s, {}, marks, dropped) == left;
    OutsideAllocated(s', left);
    forall r | r in left
      ensures r in s'.objects && r in s.objects
      ensures PayloadAllocated(s'.objects, s'.objects[r]) <==>
        forall i | 0 <= i < |s.objects[r]| :: Refs(s.objects[r][i]) !! dropped
    {
      YoungLeftUntouched(s, s', marks, owners, done, dropped, r);
      AllocatedIffUndropped(s, s'.objects, dropped, r);
    }
  }

  // ----- Runs in which sweeps may fail -----

  /** A heap and the dead objects failed sweeps have left in it. */
  datatype World = World(state: State, garbage: set<Ref>)

  /** Steps that reach objects through the live heap only: the mutator's, and a mark that aborts. */
  ghost predicate Mutates(s: State, s': State) {
    || (exists r, n, o :: AllocatedYoung(s, s', r, n, o))
    || (exists r, n, o :: AllocatedOld(s, s', r, n, o))
    || (exists r, o :: AllocatedLarge(s, s', r, o))
    || (exists source, o, published :: Stored(s, s', source, o, published))
    || RootsChanged(s, s')
    || PendingPopped(s, s')
    || MarkAborted(s, s', MinorProblem(s)) || MarkAborted(s, s', MajorProblem(s))
  }

  ghost function WithGarbage(t: State, objects: map<Ref, Object>, g: set<Ref>): State
    requires g <= objects.Keys
  {
    t.(objects := t.objects + map r | r in g :: objects[r])
  }

  /** Such a step leaves the garbage where it is. */
  ghost predicate Lifts(w: World, w': World, t': State) {
    && w.garbage <= w.state.objects.Keys && w'.garbage == w.garbage && t'.objects.Keys !! w.garbage
    && Mutates(Trim(w.state, w.garbage), t') && w'.state == WithGarbage(t', w.state.objects, w.garbage)
  }

  /** A minor collection with part of the garbage set aside. Garbage on a dirty card counts as live, which it
      may if what it names is valid with it. */
  ghost predicate MinorOver(w: World, w': World, aside: set<Ref>) {
    && aside <= w.garbage && ValidOutside(w.state, aside) && CleanGarbage(w.state, aside)
    && exists marks, owners, done, dropped ::
         MinorPartly(w.state, w'.state, marks, owners, done, dropped) && w'.garbage == MinorGarbage(w.state, aside, marks, dropped)
  }

  ghost predicate NextWorld(w: World, w': World) {
    || (exists t' :: Lifts(w, w', t'))
    || (exists marks, owners, dropped ::
          MajorPartly(w.state, w'.state, marks, owners, dropped)
          && w'.garbage == Left(MajorProblem(w.state), marks, dropped))
    || (exists aside :: MinorOver(w, w', aside))
  }

  ghost predicate SpansKept(s: State, s': State) {
    && (forall id | id in s.spans :: id in s'.spans && (IsYoungSpan(s'.spans, id) <==> IsYoungSpan(s.spans, id)))
    && (forall id | id in s.young :: id in s'.young)
  }

  lemma MutationKeepsSpans(s: State, s': State)
    requires Mutates(s, s')
    ensures SpansKept(s, s')
  {
    hide Publishable, HasYoungEdge, AllShrunk, WeakPhasesStopped;
  }

  lemma MutationKeepsValid(s: State, s': State)
    requires Valid(s) && Mutates(s, s')
    ensures Valid(s')
  {
    hide Valid, AllocatedYoung, AllocatedOld, AllocatedLarge, Stored, RootsChanged, PendingPopped, MarkAborted,
      MinorCollected, MajorCollected;
    NextKeepsValid(s, s');
  }

  lemma LiftKeeps(w: World, w': World, t': State)
    requires ValidOutside(w.state, w.garbage) && Lifts(w, w', t')
    ensures ValidOutside(w'.state, w'.garbage)
  {
    hide Mutates, NoDangling, BarrierContract, AllInert;
    var t := Trim(w.state, w.garbage);
    MutationKeepsValid(t, t');
    MutationKeepsSpans(t, t');
    assert Trim(w'.state, w.garbage).objects == t'.objects;
    forall r | r in w'.state.objects
      ensures r.span in w'.state.spans && (IsYoung(w'.state.spans, r) ==> r.span in w'.state.young)
    {
      if r in w.garbage {
        assert r in w.state.objects && r.span in t.spans;
      }
    }
  }

  lemma NextWorldKeeps(w: World, w': World)
    requires ValidOutside(w.state, w.garbage) && NextWorld(w, w')
    ensures ValidOutside(w'.state, w'.garbage)
  {
    hide ValidOutside, Lifts, MajorPartly, MinorPartly, CleanGarbage, MinorGarbage, Left;
    if t' :| Lifts(w, w', t') {
      LiftKeeps(w, w', t');
    } else if marks, owners, dropped :|
      MajorPartly(w.state, w'.state, marks, owners, dropped) && w'.garbage == Left(MajorProblem(w.state), marks, dropped) {
      MajorPartlyKeeps(w.state, w.garbage, w'.state, marks, owners, dropped);
    } else {
      var aside :| MinorOver(w, w', aside);
      var marks, owners, done, dropped :|
        MinorPartly(w.state, w'.state, marks, owners, done, dropped) && w'.garbage == MinorGarbage(w.state, aside, marks, dropped);
      MinorPartlyKeeps(w.state, aside, w'.state, marks, owners, done, dropped);
    }
  }

  /** Safety over runs with failing sweeps: in every state the heap outside the garbage is valid. */
  lemma {:induction false} WorldsAreSafe(run: seq<World>, k: nat)
    requires k < |run| && run[0] == World(EMPTY, {})
    requires forall i | 0 <= i < |run| - 1 :: NextWorld(run[i], run[i + 1])
    ensures ValidOutside(run[k].state, run[k].garbage)
    ensures run[k].garbage == {} ==> Valid(run[k].state)
  {
    hide NextWorld, ValidOutside, Valid;
    ValidWithoutGarbage(run[k].state);
    if k > 0 {
      WorldsAreSafe(run, k - 1);
      NextWorldKeeps(run[k - 1], run[k]);
    } else {
      EmptyValid();
    }
  }

  lemma EmptyValid()
    ensures ValidOutside(EMPTY, {})
  {
    assert Trim(EMPTY, {}) == EMPTY;
  }

  /** Completed collections are the sweeps that dropped everything dead. */
  lemma CompletedMajorStep(s: State, g: set<Ref>, s': State, marks: set<Ref>, owners: seq<Ref>)
    requires ValidOutside(s, g) && MajorCollected(s, s', marks, owners)
    ensures NextWorld(World(s, g), World(s', {}))
  {
    hide MajorPartly, MajorCollected, ValidOutside, LeastClosed, OwnerRecords;
    MajorRecovers(s, g, s', marks, owners);
    var dead := MajorProblem(s).scope - marks;
    assert Left(MajorProblem(s), marks, dead) == {};
  }

  lemma CompletedMinorStep(s: State, g: set<Ref>, s': State, marks: set<Ref>, owners: seq<Ref>)
    requires ValidOutside(s, g) && CleanGarbage(s, g) && MinorCollected(s, s', marks, owners)
    ensures NextWorld(World(s, g), World(s', g * OldObjects(s)))
  {
    hide ValidOutside, CleanGarbage, LeastClosed, OwnerRecords, OwnerWorklist, AfterWeakPhases, PreparedSpans, RebuiltSpans, SweptSpans;
    var dead := MinorProblem(s).scope - marks;
    assert MinorPartly(s, s', marks, owners, s.young, dead);
    assert MinorGarbage(s, g, marks, dead) == g * OldObjects(s);
    assert MinorOver(World(s, g), World(s', g * OldObjects(s)), g);
  }
}
