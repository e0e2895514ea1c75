/** What a completed collection does to the objects that survive it: their slots, their generation, their cards. */
module GcSurvivors {
  import opened Options
  import opened GcObjects
  import opened GcLiveness
  import opened GcReachability
  import opened GcWeakPhases
  import opened GcTricolor
  import opened GcGenerations
  import opened GcCollections
  import opened GcRuns

  // ----- Slots -----

  /** A survivor keeps every slot whose referents all survive; any other slot is emptied. */
  ghost predicate SlotsKept(s: State, s': State) {
    && s'.objects.Keys <= s.objects.Keys
    && forall r | r in s'.objects ::
         && |s'.objects[r]| == |s.objects[r]|
         && forall i | 0 <= i < |s.objects[r]| ::
              s'.objects[r][i] == if Refs(s.objects[r][i]) <= s'.objects.Keys then s.objects[r][i] else Blank(s.objects[r][i])
  }

  lemma SurvivingRefs(p: Problem, marks: set<Ref>, kept: map<Ref, Object>, o: Object, i: nat)
    requires PayloadAllocated(p.objects, o) && i < |o|
    requires kept.Keys == p.objects.Keys - (p.scope - marks)
    ensures Refs(o[i]) <= kept.Keys <==> Refs(o[i]) !! (p.scope - marks)
  {
    assert Refs(o[i]) <= p.objects.Keys;
  }

  lemma MajorSlotsKept(s: State, s': State, marks: set<Ref>, owners: seq<Ref>)
    requires Valid(s) && MajorCollected(s, s', marks, owners)
    ensures SlotsKept(s, s')
  {
    hide BarrierContract, ChainsSound, LeastClosed, OwnerRecords, AfterWeakPhases, OwnerWorklist, Keyless, LiveIn, PayloadAllocated;
    var p := MajorProblem(s);
    LeastIsClosed(p, marks);
    AfterWeakPhasesShrinks(p, marks);
    forall r, i | r in s'.objects && 0 <= i < |s.objects[r]|
      ensures s'.objects[r][i] == if Refs(s.objects[r][i]) <= s'.objects.Keys then s.objects[r][i] else Blank(s.objects[r][i])
    {
      assert Inert(s.objects[r]);
      LiveObjectSlots(p, marks, r, i);
      SurvivingRefs(p, marks, s'.objects, s.objects[r], i);
    }
  }

  /** What a minor collection leaves unmarked outside its scope and its sources are Old objects on clean cards. */
  lemma CleanOldStays(s: State, marks: set<Ref>, r: Ref, i: nat)
    requires Valid(s) && r in OldObjects(s) && r !in MinorProblem(s).sources && i < |s.objects[r]|
    ensures |AfterWeakPhases(MinorProblem(s), marks)[r]| == |s.objects[r]|
    ensures AfterWeakPhases(MinorProblem(s), marks)[r][i] == s.objects[r][i]
    ensures Refs(s.objects[r][i]) !! (MinorProblem(s).scope - marks)
  {
    hide NoDangling, AllInert, Keyless;
    var p := MinorProblem(s);
    assert !HasYoungEdge(s.objects, s.spans, s.objects[r]);
    forall q | q in Refs(s.objects[r][i]) ensures q !in p.scope {
      assert !YoungRef(s.objects, s.spans, q);
    }
    KeyedSlot(s, r, i);
    LiveSlotStays(p, marks, r, i);
    AfterWeakPhasesShrinks(p, marks);
  }

  lemma KeyedSlot(s: State, r: Ref, i: nat)
    requires AllInert(s.objects) && r in s.objects && i < |s.objects[r]|
    ensures !Keyless(s.objects[r][i])
  {
    assert Inert(s.objects[r]);
  }

  lemma MinorSlotsKept(s: State, s': State, marks: set<Ref>, owners: seq<Ref>)
    requires Valid(s) && MinorCollected(s, s', marks, owners)
    ensures SlotsKept(s, s')
  {
    hide BarrierContract, ChainsSound, LeastClosed, OwnerRecords, AfterWeakPhases, OwnerWorklist, Keyless, LiveIn, PayloadAllocated,
      PreparedSpans, RebuiltSpans, SweptSpans, DirtySources;
    var p := MinorProblem(s);
    LeastIsClosed(p, marks);
    AfterWeakPhasesShrinks(p, marks);
    forall r, i | r in s'.objects && 0 <= i < |s.objects[r]|
      ensures s'.objects[r][i] == if Refs(s.objects[r][i]) <= s'.objects.Keys then s.objects[r][i] else Blank(s.objects[r][i])
    {
      KeyedSlot(s, r, i);
      SurvivingRefs(p, marks, s'.objects, s.objects[r], i);
      if r in marks || r in p.sources {
        LiveObjectSlots(p, marks, r, i);
      } else {
        CleanOldStays(s, marks, r, i);
      }
    }
  }

  // ----- Which objects -----

  /** A root, or the registry or held value of a queued cleanup record. */
  ghost predicate Named(s: State, r: Ref) {
    r in s.roots || exists i :: 0 <= i < |s.pending| && (s.pending[i].owner == r || s.pending[i].held == Some(r))
  }

  ghost predicate InYoungSpan(s: State, r: Ref) {
    r.span in s.spans && s.spans[r.span].Small? && s.spans[r.span].space != Old
  }

  /** Everything named keeps an object alive, along the chains of reasons that start at it. */
  ghost function WholeHeap(s: State): Problem {
    Problem(s.objects, s.objects.Keys, set r | r in s.objects && Named(s, r), {})
  }

  /** The same for the Young objects, every Old one keeping alive what it names. */
  ghost function YoungHeap(s: State): Problem {
    Problem(s.objects, set r | r in s.objects && InYoungSpan(s, r), set r | r in s.objects && Named(s, r),
            set r | r in s.objects && !InYoungSpan(s, r))
  }

  lemma RecordNames(s: State, r: Ref)
    ensures r in RecordRefs(s.pending)
            <==> exists i :: 0 <= i < |s.pending| && (s.pending[i].owner == r || s.pending[i].held == Some(r))
  {
    if r in RecordRefs(s.pending) {
      var i :| 0 <= i < |s.pending| && r in {s.pending[i].owner} + OptionRefs(s.pending[i].held);
      assert s.pending[i].owner == r || s.pending[i].held == Some(r);
    }
    if i :| 0 <= i < |s.pending| && (s.pending[i].owner == r || s.pending[i].held == Some(r)) {
      assert r in {s.pending[i].owner} + OptionRefs(s.pending[i].held);
    }
  }

  lemma SeedsAreNamed(s: State)
    ensures forall r :: r in Seeds(s) <==> Named(s, r)
    ensures NoDangling(s) ==> Seeds(s) == set r | r in s.objects && Named(s, r)
  {
    hide RecordRefs, Named;
    forall r ensures r in Seeds(s) <==> Named(s, r) {
      SeedNamed(s, r);
    }
  }

  lemma SeedNamed(s: State, r: Ref)
    ensures r in Seeds(s) <==> Named(s, r)
  {
    hide RecordRefs;
    RecordNames(s, r);
  }

  lemma DerivedInScope(p: Problem, r: Ref)
    requires Derived(p, r)
    ensures r in p.scope
  {
    var chain :| Derivation(p, chain) && r in chain;
    var n :| 0 <= n < |chain| && chain[n] == r;
  }

  /** A major collection keeps exactly the objects some chain of reasons from a root or queued record reaches. */
  lemma MajorKeepsIff(s: State, s': State, marks: set<Ref>, owners: seq<Ref>, r: Ref)
    requires Valid(s) && MajorCollected(s, s', marks, owners)
    ensures r in s'.objects <==> Derived(WholeHeap(s), r)
  {
    hide BarrierContract, ChainsSound, AllInert, OwnerRecords, AfterWeakPhases, OwnerWorklist, LeastClosed, Derived;
    SeedsAreNamed(s);
    assert MajorProblem(s) == WholeHeap(s);
    LeastIsClosed(WholeHeap(s), marks);
    LeastIffDerived(WholeHeap(s), marks);
    AfterWeakPhasesShrinks(WholeHeap(s), marks);
    if Derived(WholeHeap(s), r) {
      DerivedInScope(WholeHeap(s), r);
    }
  }

  /** A minor collection keeps all Old objects and exactly the Young ones such a chain, or one from an Old object, reaches. */
  lemma MinorKeepsIff(s: State, s': State, marks: set<Ref>, owners: seq<Ref>, r: Ref)
    requires Valid(s) && MinorCollected(s, s', marks, owners)
    ensures r in s'.objects <==> r in s.objects && (!InYoungSpan(s, r) || Derived(YoungHeap(s), r))
  {
    hide BarrierContract, ChainsSound, AllInert, OwnerRecords, AfterWeakPhases, OwnerWorklist, LeastClosed, Derived,
      PreparedSpans, RebuiltSpans, SweptSpans, DirtySources;
    SeedsAreNamed(s);
    MinorMarksExactly(s, marks);
    assert WholeOldProblem(s) == YoungHeap(s);
    LeastIsClosed(YoungHeap(s), marks);
    LeastIffDerived(YoungHeap(s), marks);
    AfterWeakPhasesShrinks(MinorProblem(s), marks);
  }

  /** Every reference held anywhere is allocated; an Old object that names a Young one is on a dirty card of a chained span. */
  ghost predicate Resolves(s: State) {
    && (forall r, i, q: Ref | r in s.objects && 0 <= i < |s.objects[r]| && Holding(s.objects[r][i], q) ::
          && q in s.objects
          && (InYoungSpan(s, q) && !InYoungSpan(s, r) ==>
                && r.span in s.spans && r.span in s.remembered
                && match s.spans[r.span]
                   case Small(_, _, cards) => r.offset / 512 in cards
                   case Large(remembered) => remembered))
    && forall r | Named(s, r) :: r in s.objects
  }

  predicate Holding(slot: Slot, q: Ref) {
    match slot
    case Strong(t) => t == Some(q)
    case Weak(t) => t == Some(q)
    case Ephemeron(k, v) => k == Some(q) || v == Some(q)
    case Finalization(t, h) => t == Some(q) || h == Some(q)
  }

  lemma ValidResolves(s: State)
    requires Valid(s)
    ensures Resolves(s)
  {
    hide ChainsSound, AllInert;
    SeedsAreNamed(s);
    forall r, i, q: Ref | r in s.objects && 0 <= i < |s.objects[r]| && Holding(s.objects[r][i], q)
      ensures q in s.objects && (YoungRef(s.objects, s.spans, q) ==> HasYoungEdge(s.objects, s.spans, s.objects[r]))
    {
      assert q in Refs(s.objects[r][i]);
    }
    forall r | Named(s, r) ensures r in s.objects {
      assert r in Seeds(s);
    }
  }

  /** So it is in every state of every run whose sweeps complete. */
  lemma RunsResolve(run: seq<State>, k: nat)
    requires k < |run| && run[0] == EMPTY
    requires forall i | 0 <= i < |run| - 1 :: Next(run[i], run[i + 1])
    ensures Resolves(run[k])
  {
    hide Next, Valid, Resolves;
    RunsAreSafe(run, k);
    ValidResolves(run[k]);
  }

  // ----- Generations -----

  /** A span that keeps an object through a minor collection: the same slots, and promoted when due. */
  lemma KeptSpan(s: State, s': State, marks: set<Ref>, owners: seq<Ref>, r: Ref)
    requires ChainsSound(s) && MinorCollected(s, s', marks, owners) && r in s'.objects && IsYoung(s.spans, r)
    ensures r in s.objects && r in marks && r.span in s'.spans
    ensures var live, before := |LiveIn(marks, r.span)|, s.spans[r.span];
      s'.spans[r.span] == AdvancedSpan(before.(cards := s'.spans[r.span].cards), live)
  {
    hide LeastClosed, OwnerRecords, OwnerWorklist, AfterWeakPhases, PromotionDue, PreparedSpans, RebuiltSpans, SweptSpans;
    var p := MinorProblem(s);
    var objects := AfterWeakPhases(p, marks);
    AfterWeakPhasesShrinks(p, marks);
    PreparationKeepsSpace(objects, s, marks);
    assert r in LiveIn(marks, r.span) && r.span in s.young;
    RetainedSpan(PreparedSpans(objects, RebuiltSpans(objects, s.spans, s.remembered), s.young, marks), s'.spans, s.young, marks, r.span);
  }

  lemma RetainedSpan(prepared: map<nat, Span>, spans': map<nat, Span>, chain: seq<nat>, marks: set<Ref>, id: nat)
    requires SweptSpans(prepared, spans', chain, marks) && id in chain && IsYoungSpan(prepared, id) && LiveIn(marks, id) != {}
    ensures id in spans' && spans'[id] == AdvancedSpan(prepared[id], |LiveIn(marks, id)|)
  {
    hide LiveIn, PromotionDue;
  }

  /** Whole spans are promoted at the second minor collection they live through, or when four fifths of their slots are live. */
  lemma PromotedIff(s: State, s': State, marks: set<Ref>, owners: seq<Ref>, r: Ref)
    requires ChainsSound(s) && MinorCollected(s, s', marks, owners) && r in s'.objects && IsYoung(s.spans, r)
    ensures r.span in s'.spans && s'.spans[r.span].Small? && s'.spans[r.span].slotCount == s.spans[r.span].slotCount
    ensures !IsYoung(s'.spans, r) <==>
      (s.spans[r.span].space.Survivor? && s.spans[r.span].space.age >= 1)
      || |LiveIn(marks, r.span)| * 100 >= s.spans[r.span].slotCount * 80
    ensures IsYoung(s'.spans, r) ==> s'.spans[r.span].space == Survivor(1)
  {
    hide MinorCollected, ChainsSound, LiveIn;
    KeptSpan(s, s', marks, owners, r);
    LiveMember(marks, r);
  }

  lemma LiveMember(marks: set<Ref>, r: Ref)
    requires r in marks
    ensures |LiveIn(marks, r.span)| > 0
  {
    assert r in LiveIn(marks, r.span);
  }

  /** A Young span that keeps nothing is gone, or in the pool: Eden again, without cards and off the chain. */
  lemma EmptiedSpanPooled(s: State, s': State, marks: set<Ref>, owners: seq<Ref>, id: nat)
    requires ChainsSound(s) && MinorCollected(s, s', marks, owners)
    requires IsYoungSpan(s.spans, id) && id in s.young && forall r | r in s'.objects :: r.span != id
    ensures id !in s'.young && id !in s'.remembered
    ensures id in s'.spans ==> s'.spans[id] == Small(Eden, s.spans[id].slotCount, {})
  {
    hide LeastClosed, OwnerRecords, OwnerWorklist, AfterWeakPhases, PreparedSpan, RebuiltSpan;
    var p := MinorProblem(s);
    AfterWeakPhasesShrinks(p, marks);
    LeastIsClosed(p, marks);
    PreparationKeepsSpace(AfterWeakPhases(p, marks), s, marks);
    forall r | r in marks ensures r.span != id {
      assert r in s'.objects;
    }
    assert LiveIn(marks, id) == {};
  }

  /** No object is Young through two minor collections in a row: the second promotes it. */
  lemma SecondMinorPromotes(s: State, t: State, u: State, a: set<Ref>, b: set<Ref>, owners: seq<Ref>, later: seq<Ref>, r: Ref)
    requires Valid(s) && MinorCollected(s, t, a, owners) && MinorCollected(t, u, b, later)
    requires r in s.objects && r in t.objects && r in u.objects
    ensures !IsYoung(u.spans, r)
  {
    hide MinorCollected, Valid, LiveIn;
    CollectedIsSwept(s, t, a, owners);
    MinorKeepsValid(s, t, a, owners, s.young);
    ValidChains(s);
    ValidChains(t);
    if IsYoung(s.spans, r) {
      PromotedIff(s, t, a, owners, r);
    } else {
      OldStaysOld(s, t, a, owners, r);
    }
    if IsYoung(t.spans, r) {
      PromotedIff(t, u, b, later, r);
    } else {
      OldStaysOld(t, u, b, later, r);
    }
  }

  lemma ValidChains(s: State)
    requires Valid(s)
    ensures ChainsSound(s)
  {
  }

  lemma OldStaysOld(s: State, s': State, marks: set<Ref>, owners: seq<Ref>, r: Ref)
    requires MinorCollected(s, s', marks, owners) && !IsYoung(s.spans, r)
    ensures !IsYoung(s'.spans, r)
  {
    hide LeastClosed, OwnerWorklist, AfterWeakPhases, OwnerRecords, PreparedSpans, RebuiltSpans, SweptSpans;
    CollectedIsSwept(s, s', marks, owners);
    MinorYoungBefore(s, s', marks, owners, s.young, r.span);
  }

  /** An Eden span filled to less than four fifths stays Young through its first minor collection. */
  lemma SparseEdenStaysYoung(s: State, s': State, marks: set<Ref>, owners: seq<Ref>, r: Ref)
    requires ChainsSound(s) && MinorCollected(s, s', marks, owners) && r in s'.objects
    requires r.span in s.spans && s.spans[r.span].Small? && s.spans[r.span].space == Eden
    requires |LiveIn(marks, r.span)| * 100 < s.spans[r.span].slotCount * 80
    ensures IsYoung(s'.spans, r)
  {
    hide MinorCollected, LiveIn, ChainsSound;
    PromotedIff(s, s', marks, owners, r);
  }

  /** The span of `r` has been through a minor collection. */
  ghost predicate Aged(s: State, r: Ref) {
    r.span in s.spans && (s.spans[r.span].Small? ==> s.spans[r.span].space != Eden && s.spans[r.span].space != Survivor(0))
  }

  lemma MinorAges(s: State, s': State, marks: set<Ref>, owners: seq<Ref>, r: Ref)
    requires Valid(s) && MinorCollected(s, s', marks, owners) && r in s.objects && r in s'.objects
    ensures Aged(s', r)
    ensures Aged(s, r) ==> !IsYoung(s'.spans, r)
  {
    hide MinorCollected, Valid, LiveIn;
    ValidChains(s);
    if IsYoung(s.spans, r) {
      PromotedIff(s, s', marks, owners, r);
    } else {
      OldStaysOld(s, s', marks, owners, r);
      CollectedIsSwept(s, s', marks, owners);
      MinorKeepsValid(s, s', marks, owners, s.young);
      ValidChains(s');
    }
  }

  lemma MutatorKeepsAged(s: State, s': State, r: Ref)
    requires Aged(s, r) && Next(s, s')
    requires !(exists marks, owners :: MinorCollected(s, s', marks, owners))
    requires !(exists marks, owners :: MajorCollected(s, s', marks, owners))
    ensures Aged(s', r)
  {
    hide Publishable, HasYoungEdge, AllShrunk, WeakPhasesStopped, MinorCollected, MajorCollected;
  }

  lemma MajorKeepsAged(s: State, s': State, marks: set<Ref>, owners: seq<Ref>, r: Ref)
    requires Aged(s, r) && MajorCollected(s, s', marks, owners) && r in s'.objects
    ensures Aged(s', r)
  {
    hide LeastClosed, OwnerWorklist, OwnerRecords;
    CollectedIsSwept(s, s', marks, owners);
    MajorSpanKept(s, s', marks, owners, r);
  }

  lemma NextKeepsAged(s: State, s': State, r: Ref)
    requires Valid(s) && Aged(s, r) && Next(s, s') && r in s.objects && r in s'.objects
    ensures Aged(s', r)
  {
    hide Valid, Next, Aged, MinorCollected, MajorCollected;
    if marks, owners :| MinorCollected(s, s', marks, owners) {
      MinorAges(s, s', marks, owners, r);
    } else if marks, owners :| MajorCollected(s, s', marks, owners) {
      MajorKeepsAged(s, s', marks, owners, r);
    } else {
      MutatorKeepsAged(s, s', r);
    }
  }

  lemma {:induction false} AgedLater(run: seq<State>, r: Ref, i: nat, k: nat)
    requires i <= k < |run| && run[0] == EMPTY && forall n | 0 <= n < |run| - 1 :: Next(run[n], run[n + 1])
    requires Aged(run[i], r) && forall n | i <= n <= k :: r in run[n].objects
    ensures Aged(run[k], r)
  {
    hide Next, Aged, Valid;
    if i < k {
      AgedLater(run, r, i, k - 1);
      RunsAreSafe(run, k - 1);
      NextKeepsAged(run[k - 1], run[k], r);
    }
  }

  /** In every run, whatever happens in between: an object is Old once it has lived through two minor collections. */
  lemma TwoMinorsPromote(run: seq<State>, r: Ref, i: nat, j: nat, a: set<Ref>, b: set<Ref>, owners: seq<Ref>, later: seq<Ref>)
    requires i < j < |run| - 1 && run[0] == EMPTY && forall n | 0 <= n < |run| - 1 :: Next(run[n], run[n + 1])
    requires forall n | i <= n <= j + 1 :: r in run[n].objects
    requires MinorCollected(run[i], run[i + 1], a, owners) && MinorCollected(run[j], run[j + 1], b, later)
    ensures !IsYoung(run[j + 1].spans, r)
  {
    hide Next, Aged, Valid, MinorCollected;
    RunsAreSafe(run, i);
    MinorAges(run[i], run[i + 1], a, owners, r);
    AgedLater(run, r, i + 1, j);
    RunsAreSafe(run, j);
    MinorAges(run[j], run[j + 1], b, later, r);
  }

  // ----- Cards -----

  /** An object of span `id` that named a Young object when the cards were written. */
  ghost predicate Covers(s: State, s': State, r: Ref) {
    r in s'.objects && exists i, q :: 0 <= i < |s'.objects[r]| && q in Refs(s'.objects[r][i]) && IsYoung(s.spans, q)
  }

  lemma YoungEdgeCovers(s: State, s': State, marks: set<Ref>, owners: seq<Ref>, r: Ref)
    requires Valid(s) && MinorCollected(s, s', marks, owners) && r in s'.objects
    requires HasYoungEdge(AfterWeakPhases(MinorProblem(s), marks), s.spans, s'.objects[r])
    ensures Covers(s, s', r)
  {
    hide Valid, MinorCollected, AfterWeakPhases;
    var objects, o := AfterWeakPhases(MinorProblem(s), marks), s'.objects[r];
    var i :| 0 <= i < |o| && exists q :: q in Refs(o[i]) && YoungRef(objects, s.spans, q);
    var q :| q in Refs(o[i]) && YoungRef(objects, s.spans, q);
    CollectedIsSwept(s, s', marks, owners);
    MinorRefsKept(s, s', marks, owners, s.young, r, i);
    SurvivorsListed(s, s', marks, owners);
  }

  lemma SurvivorsListed(s: State, s': State, marks: set<Ref>, owners: seq<Ref>)
    requires MinorCollected(s, s', marks, owners)
    ensures s'.objects.Keys <= AfterWeakPhases(MinorProblem(s), marks).Keys
    ensures forall r | r in s'.objects :: s'.objects[r] == AfterWeakPhases(MinorProblem(s), marks)[r]
  {
  }

  /** A source that kept its card, or was given one before its promotion. */
  ghost predicate CardSource(s: State, marks: set<Ref>, r: Ref) {
    && r in s.objects && (r in marks || !IsYoung(s.spans, r))
    && HasYoungEdge(AfterWeakPhases(MinorProblem(s), marks), s.spans, AfterWeakPhases(MinorProblem(s), marks)[r])
  }

  lemma CardSourceCovers(s: State, s': State, marks: set<Ref>, owners: seq<Ref>, r: Ref)
    requires Valid(s) && MinorCollected(s, s', marks, owners) && CardSource(s, marks, r)
    ensures Covers(s, s', r)
  {
    hide Valid, LeastClosed, OwnerWorklist, OwnerRecords, PreparedSpans, RebuiltSpans, SweptSpans, HasYoungEdge, Covers;
    AfterWeakPhasesShrinks(MinorProblem(s), marks);
    YoungEdgeCovers(s, s', marks, owners, r);
  }

  lemma PromotedCard(s: State, s': State, marks: set<Ref>, owners: seq<Ref>, id: nat, card: nat) returns (r: Ref)
    requires Valid(s) && MinorCollected(s, s', marks, owners) && IsYoungSpan(s.spans, id) && id in s'.spans
    requires s'.spans[id].Small? && s'.spans[id].space == Old && card in s'.spans[id].cards
    ensures r.span == id && Card(r) == card && CardSource(s, marks, r)
  {
    hide LeastClosed, OwnerWorklist, OwnerRecords, AfterWeakPhases, HasYoungEdge, PromotionDue, PreparedSpans, RebuiltSpans, SweptSpans,
      NoDangling, BarrierContract, AllInert;
    var p := MinorProblem(s);
    var objects, rebuilt := AfterWeakPhases(p, marks), RebuiltSpans(AfterWeakPhases(p, marks), s.spans, s.remembered);
    AfterWeakPhasesShrinks(p, marks);
    PreparationKeepsSpace(objects, s, marks);
    RebuiltYoung(objects, s, id);
    SweptOld(PreparedSpans(objects, rebuilt, s.young, marks), s'.spans, s.young, marks, id);
    PreparedForPromotion(objects, rebuilt, s.young, marks, id);
    assert card in PromotionCards(objects, rebuilt, marks, id);
    r :| r in objects && r in marks && r.span == id && HasYoungEdge(objects, rebuilt, objects[r]) && Card(r) == card;
    SameYoungEdge(objects, rebuilt, s.spans, objects[r]);
  }

  lemma RebuiltYoung(objects: map<Ref, Object>, s: State, id: nat)
    requires id in s.spans
    ensures forall n :: IsYoungSpan(RebuiltSpans(objects, s.spans, s.remembered), n) <==> IsYoungSpan(s.spans, n)
    ensures IsYoungSpan(s.spans, id) ==> RebuiltSpans(objects, s.spans, s.remembered)[id] == s.spans[id]
  {
    hide RebuiltCards;
  }

  lemma SweptOld(prepared: map<nat, Span>, spans': map<nat, Span>, chain: seq<nat>, marks: set<Ref>, id: nat)
    requires SweptSpans(prepared, spans', chain, marks) && IsYoungSpan(prepared, id) && id in spans'
    requires spans'[id].Small? && spans'[id].space == Old
    ensures id in chain && PromotionDue(prepared[id].space, |LiveIn(marks, id)|, prepared[id].slotCount)
    ensures spans'[id].cards == prepared[id].cards
  {
    hide LiveIn, PromotionDue;
  }

  lemma KeptCard(s: State, s': State, marks: set<Ref>, owners: seq<Ref>, id: nat)
    requires Valid(s) && MinorCollected(s, s', marks, owners) && !IsYoungSpan(s.spans, id) && id in s'.spans
    ensures id in s.spans
    ensures s'.spans[id] == RebuiltSpan(AfterWeakPhases(MinorProblem(s), marks), s.spans, id)
            || (s'.spans[id] == s.spans[id] && !IsDirty(s.spans[id]))
  {
    hide LeastClosed, OwnerWorklist, OwnerRecords, AfterWeakPhases, PromotionDue, RebuiltCards, PromotionCards, LargeHasYoungEdge,
      NoDangling, BarrierContract, AllInert;
  }

  /** The rebuild keeps a card on which a source names a Young object, or something that is no longer allocated. */
  lemma InvalidEdgeKeepsCard(s: State, r: Ref, i: nat, q: Ref)
    requires r in s.objects && i < |s.objects[r]| && Holding(s.objects[r][i], q) && (q !in s.objects || InYoungSpan(s, q))
    requires r.span in s.spans && r.span in s.remembered
    requires match s.spans[r.span]
             case Small(space, _, cards) => space == Old && r.offset / 512 in cards
             case Large(remembered) => remembered
    ensures match RebuiltSpans(s.objects, s.spans, s.remembered)[r.span]
            case Small(_, _, cards) => r.offset / 512 in cards
            case Large(remembered) => remembered
  {
    assert q in Refs(s.objects[r][i]);
    assert HasYoungEdge(s.objects, s.spans, s.objects[r]);
  }

  /** Minor collections leave no card dirty without cause: on each sits a survivor that named a Young object. */
  lemma CardsPrecise(s: State, s': State, marks: set<Ref>, owners: seq<Ref>, id: nat, card: nat)
    requires Valid(s) && MinorCollected(s, s', marks, owners)
    requires id in s'.spans && s'.spans[id].Small? && s'.spans[id].space == Old && card in s'.spans[id].cards
    ensures exists r: Ref :: r.span == id && Card(r) == card && Covers(s, s', r)
  {
    hide Valid, MinorCollected, AfterWeakPhases, HasYoungEdge, Covers;
    var objects := AfterWeakPhases(MinorProblem(s), marks);
    AfterWeakPhasesShrinks(MinorProblem(s), marks);
    if IsYoungSpan(s.spans, id) {
      var r := PromotedCard(s, s', marks, owners, id, card);
      CardSourceCovers(s, s', marks, owners, r);
    } else {
      KeptCard(s, s', marks, owners, id);
      var r :| r in objects && r.span == id && OnDirtyCard(s.spans, r) && HasYoungEdge(objects, s.spans, objects[r]) && Card(r) == card;
      CardSourceCovers(s, s', marks, owners, r);
    }
  }

  /** The barrier makes only the neighbours of the source be scanned: those in its 512 bytes, or the one large object. */
  lemma RememberPrecise(s: State, source: Ref, r: Ref)
    requires ChainsSound(s) && source in s.objects && (s.spans[source.span].Small? ==> s.spans[source.span].space == Old)
    requires var s' := Remember(s, source); r in DirtySources(s'.objects, s'.spans, s'.remembered)
    ensures r in DirtySources(s.objects, s.spans, s.remembered)
            || (r.span == source.span && (s.spans[r.span].Small? ==> r.offset / 512 == source.offset / 512))
  {
  }

  /** Spans enter the remembered chain once, at its head; the source is scanned from then on. */
  lemma RememberedAtHead(s: State, source: Ref)
    requires ChainsSound(s) && source in s.objects && (s.spans[source.span].Small? ==> s.spans[source.span].space == Old)
    ensures var s' := Remember(s, source);
      && source in DirtySources(s'.objects, s'.spans, s'.remembered)
      && s'.objects == s.objects && s'.young == s.young && s'.spans.Keys == s.spans.Keys
      && (source.span in s.remembered ==> s'.remembered == s.remembered)
      && (source.span !in s.remembered ==> |s'.remembered| > 0 && s'.remembered[0] == source.span && s'.remembered[1..] == s.remembered)
  {
  }

  lemma LargeOwnersPrecise(s: State, s': State, marks: set<Ref>, owners: seq<Ref>, id: nat)
    requires Valid(s) && MinorCollected(s, s', marks, owners) && id in s'.spans && s'.spans[id] == Large(true)
    ensures exists r: Ref :: r.span == id && Covers(s, s', r)
  {
    hide Valid, MinorCollected, AfterWeakPhases, HasYoungEdge, Covers;
    var objects := AfterWeakPhases(MinorProblem(s), marks);
    AfterWeakPhasesShrinks(MinorProblem(s), marks);
    LargeStaysLarge(s, s', marks, owners, id);
    KeptCard(s, s', marks, owners, id);
    var r :| r in objects && r.span == id && OnDirtyCard(s.spans, r) && HasYoungEdge(objects, s.spans, objects[r]);
    CardSourceCovers(s, s', marks, owners, r);
  }

  lemma LargeStaysLarge(s: State, s': State, marks: set<Ref>, owners: seq<Ref>, id: nat)
    requires MinorCollected(s, s', marks, owners) && id in s'.spans && s'.spans[id].Large?
    ensures !IsYoungSpan(s.spans, id)
  {
    hide LeastClosed, OwnerWorklist, OwnerRecords, AfterWeakPhases, PromotionDue, RebuiltCards, PromotionCards, LargeHasYoungEdge;
  }
}
