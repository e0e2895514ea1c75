/**
 * The iterative tri-color marker. `Marker` and `YoungMarker` run the same statements except that the
 * young one ignores edges to Old objects and treats every Old target as live, so one class models
 * both: `minor` selects the scope.
 */
module GcMarker {
  import opened Options
  import opened GcObjects
  import opened GcLiveness
  import opened GcWeakPhases
  import opened GcTricolor

  datatype MarkError =
    | InvalidReference(reference: Ref)
    | GrayQueueLimit
    | WeakOwnerLimit
    | FinalizationQueueLimit
    | AllocationFailed

  class Marker {
    ghost const problem: Problem
    ghost const queued: seq<Record>
    const minor: bool
    const spans: map<nat, Span>
    const grayLimit: nat
    const ownerLimit: nat
    const pendingLimit: nat

    var objects: map<Ref, Object>
    var marks: set<Ref>
    var gray: seq<Ref>
    var owners: seq<WeakOwner>
    var pending: seq<Record>
    var error: Option<MarkError>
    var markedObjects: nat
    ghost var done: set<Ref>

    /** Classifies a reference: the major marker collects everything, the young marker only Young objects. */
    predicate InScope(r: Ref) { minor ==> IsYoung(spans, r) }

    ghost predicate Setup() {
      && WellPosed(problem)
      && (forall r | r in problem.objects :: r in problem.scope <==> InScope(r))
      && (forall rec | rec in queued :: rec.owner in problem.seeds && OptionRefs(rec.held) <= problem.seeds)
    }

    /** No queue outgrows its quota, unless the records kept from before already did. */
    ghost predicate QuotasKept()
      reads this`pending, this`gray, this`owners
    {
      && |gray| <= grayLimit && |owners| <= ownerLimit
      && (|queued| <= pendingLimit ==> |pending| <= pendingLimit)
    }

    /** Why a failure is reported: only for an unallocated reference that the mark had to look at, an
        exhausted quota or an allocator refusal. */
    ghost predicate ErrorExplained()
      reads this`error, this`pending, this`gray, this`owners
    {
      QuotasKept() &&
      match error
      case None => true
      case Some(InvalidReference(r)) => r !in problem.objects && Met(problem, r)
      case Some(GrayQueueLimit) => grayLimit < |problem.objects.Keys|
      case Some(WeakOwnerLimit) => ownerLimit < |problem.objects.Keys|
      case Some(FinalizationQueueLimit) => |pending| >= pendingLimit
      case Some(AllocationFailed) => true
    }

    /** What holds throughout marking, errors included. */
    ghost predicate Marking()
      reads this
    {
      && Setup() && ErrorExplained()
      && marks <= problem.scope && Below(problem, marks)
      && markedObjects == |marks|
      && objects == problem.objects && pending == queued
    }

    /** The tri-color invariant: `done` is black, the queue is gray, `hand` is being traced. */
    ghost predicate Tricolor(hand: set<Ref>)
      reads this
    {
      && Marking()
      && Colored(marks, gray, done, hand, problem.sources)
      && Blackened(problem, marks, done)
      && OwnersRecorded(problem, owners, done)
    }

    constructor (minor: bool, spans: map<nat, Span>, objects: map<Ref, Object>, pending: seq<Record>,
                 grayLimit: nat, ownerLimit: nat, pendingLimit: nat, ghost problem: Problem)
      requires WellPosed(problem) && problem.objects == objects
      requires forall r | r in objects :: r in problem.scope <==> (minor ==> IsYoung(spans, r))
      requires forall rec | rec in pending :: rec.owner in problem.seeds && OptionRefs(rec.held) <= problem.seeds
      ensures this.problem == problem && queued == pending && this.minor == minor && this.spans == spans
      ensures this.grayLimit == grayLimit && this.ownerLimit == ownerLimit && this.pendingLimit == pendingLimit
      ensures Tricolor({}) && error.None? && gray == [] && done == {} && marks == {} && owners == []
    {
      this.problem, this.queued := problem, pending;
      this.minor, this.spans := minor, spans;
      this.grayLimit, this.ownerLimit, this.pendingLimit := grayLimit, ownerLimit, pendingLimit;
      this.objects, this.pending := objects, pending;
      marks, gray, owners, error, markedObjects, done := {}, [], [], None, 0, {};
    }

    /** Marks a white object in scope and queues it, reserving queue space before the mark bit. */
    method Enqueue(r: Ref, ghost hand: set<Ref>)
      requires Tricolor(hand) && Forced(problem, r)
      requires Met(problem, r)
      modifies this`marks, this`gray, this`error, this`markedObjects
      ensures Tricolor(hand)
      ensures old(marks) <= marks && (old(error).Some? ==> error == old(error))
      ensures error.None? ==> Included(problem, marks, Some(r))
      ensures marks == if error.None? && r in problem.scope then old(marks) + {r} else old(marks)
      ensures gray == if marks == old(marks) then old(gray) else old(gray) + [r]
      ensures old(error).None? && r !in objects ==> error == Some(InvalidReference(r))
    {
      hide Setup, Colored, Blackened, OwnersRecorded, Below, Met;
      if error.Some? { return; }
      if r !in objects {
        error := Some(InvalidReference(r));
        return;
      }
      SetupFacts(r);
      if !InScope(r) || r in marks { return; }
      MarkAndPush(r, hand);
    }

    /** Reserves queue space, sets the mark bit and pushes, in that order. */
    method MarkAndPush(r: Ref, ghost hand: set<Ref>)
      requires Tricolor(hand) && Forced(problem, r) && error.None?
      requires r in problem.scope && r !in problem.sources && r !in marks
      modifies this`marks, this`gray, this`error, this`markedObjects
      ensures Tricolor(hand) && old(marks) <= marks
      ensures marks == if error.None? then old(marks) + {r} else old(marks)
      ensures gray == if error.None? then old(gray) + [r] else old(gray)
    {
      hide Setup, WellPosed, Forced, Colored, Blackened, OwnersRecorded, Below, Met;
      if |gray| == grayLimit {
        GrayFits(r, hand);
        error := Some(GrayQueueLimit);
        return;
      }
      var refused: bool := *;
      if refused {
        error := Some(AllocationFailed);
        return;
      }
      ForcedBelow(problem, marks, r);
      BlackenedMonotone(problem, marks, marks + {r}, done);
      ColoredPush(marks, gray, done, hand, problem.sources, r);
      marks, gray, markedObjects := marks + {r}, gray + [r], markedObjects + 1;
    }

    lemma SetupFacts(r: Ref)
      requires Setup() && r in problem.objects
      ensures WellPosed(problem) && (r in problem.scope <==> InScope(r))
    {
    }

    lemma SetupPosed()
      requires Setup()
      ensures WellPosed(problem)
    {
    }

    lemma GrayFits(r: Ref, hand: set<Ref>)
      requires Tricolor(hand) && r in problem.scope && r !in marks
      ensures |gray| < |problem.objects.Keys|
    {
      ElementsSize(gray);
      SubsetSize(Elements(gray) + {r}, problem.objects.Keys);
      assert r !in Elements(gray);
    }

    /** Traces one object strongly and, if it carries weak items, puts it on the owner worklist. */
    method TraceSource(x: Ref)
      requires Tricolor({x}) && error.None? && x in problem.objects
      modifies this
      ensures old(marks) <= marks
      ensures marks == old(marks) ==> gray == old(gray)
      ensures error.Some? ==> Marking()
      ensures error.None? ==> Tricolor({}) && done == old(done) + {x}
      ensures old(done) <= done
    {
      hide Setup, Colored, Blackened, OwnersRecorded, Below, Met, Traced;
      HandLive(marks, gray, done, problem.sources, x);
      MarkedTraced(problem, marks, x);
      var hasWeak, hasEphemeron, hasFinalization := false, false, false;
      var o := objects[x];
      for i := 0 to |o|
        modifies this`marks, this`gray, this`error, this`markedObjects
        invariant Tricolor({x}) && old(marks) <= marks
        invariant marks == old(marks) ==> gray == old(gray)
        invariant error.None? ==> forall j | 0 <= j < i :: Included(problem, marks, StrongTarget(o[j]))
        invariant hasWeak == exists j :: 0 <= j < i && WeakActive(o[j])
        invariant hasEphemeron == exists j :: 0 <= j < i && EphemeronActive(o[j])
        invariant hasFinalization == exists j :: 0 <= j < i && FinalizationActive(o[j])
      {
        var t := StrongTarget(o[i]);
        if t.Some? {
          StrongEdgeForced(problem, marks, x, i, t.value);
          SlotMet(problem, x, i);
          assert t.value in Refs(o[i]);
          Enqueue(t.value, {x});
        }
        hasWeak := hasWeak || WeakActive(o[i]);
        hasEphemeron := hasEphemeron || EphemeronActive(o[i]);
        hasFinalization := hasFinalization || FinalizationActive(o[i]);
      }
      assert error.None? ==> StrongClosed(problem, marks, o);
      if error.None? {
        RecordWeakOwner(x, hasWeak, hasEphemeron, hasFinalization);
      }
    }

    method RecordWeakOwner(x: Ref, hasWeak: bool, hasEphemeron: bool, hasFinalization: bool)
      requires Tricolor({x}) && error.None? && x in problem.objects
      requires StrongClosed(problem, marks, problem.objects[x])
      requires hasWeak == AnyWeak(problem.objects[x])
      requires hasEphemeron == AnyEphemeron(problem.objects[x])
      requires hasFinalization == AnyFinalization(problem.objects[x])
      modifies this`owners, this`error, this`done
      ensures error.Some? ==> Marking()
      ensures error.None? ==> Tricolor({}) && done == old(done) + {x}
      ensures old(done) <= done
    {
      hide Setup, Colored, Blackened, OwnersRecorded, Below, StrongClosed, AnyWeak, AnyEphemeron, AnyFinalization, Met;
      ColoredDone(marks, gray, done, problem.sources, x);
      BlackenedDone(problem, marks, done, x);
      if !hasWeak && !hasEphemeron && !hasFinalization {
        OwnersUnchanged(problem, owners, done, x);
        done := done + {x};
        return;
      }
      if |owners| == ownerLimit {
        OwnersFit(x);
        error := Some(WeakOwnerLimit);
        return;
      }
      var refused: bool := *;
      if refused {
        error := Some(AllocationFailed);
        return;
      }
      var owner := WeakOwner(x, hasWeak, hasEphemeron, hasFinalization);
      OwnersExtended(problem, owners, done, owner);
      owners, done := owners + [owner], done + {x};
    }

    lemma OwnersFit(x: Ref)
      requires Tricolor({x}) && x in problem.objects
      ensures |owners| < |problem.objects.Keys|
    {
      var refs := References(owners);
      ElementsSize(refs);
      forall r | r in Elements(refs) ensures r in done {
        var i :| 0 <= i < |refs| && refs[i] == r;
        assert owners[i].reference in done;
      }
      assert x !in Elements(refs);
      SubsetSize(Elements(refs) + {x}, problem.objects.Keys);
    }

    /** Empties the gray queue, one object at a time. */
    method Drain()
      requires Tricolor({}) && error.None?
      modifies this
      ensures old(marks) <= marks && old(done) <= done
      ensures error.Some? ==> Marking()
      ensures error.None? ==> Tricolor({}) && gray == []
      ensures old(gray) == [] ==> marks == old(marks) && owners == old(owners) && error == old(error)
    {
      hide Setup, Colored, Blackened, OwnersRecorded, Below, Met;
      while error.None? && gray != []
        invariant old(marks) <= marks && old(done) <= done
        invariant error.Some? ==> Marking()
        invariant error.None? ==> Tricolor({})
        invariant old(gray) == [] ==> marks == old(marks) && owners == old(owners) && gray == [] && error == old(error)
        decreases problem.scope - marks, |gray|
      {
        var x := gray[|gray| - 1];
        assert WellPosed(problem) by { SetupPosed(); }
        ColoredPop(marks, gray, done, problem.sources);
        gray := gray[..|gray| - 1];
        TraceSource(x);
      }
    }

    /** Reads liveness of a weak target, ephemeron key or registration target. */
    method ReferenceLive(r: Ref) returns (live: bool)
      requires Setup() && ErrorExplained() && error.None? && marks <= problem.scope
      requires objects.Keys == problem.objects.Keys
      requires Met(problem, r)
      modifies this`error
      ensures ErrorExplained()
      ensures error.None? ==> r in problem.objects && live == Live(problem, marks, r)
    {
      hide Met;
      if r !in objects {
        error := Some(InvalidReference(r));
        return false;
      }
      live := !InScope(r) || r in marks;
    }

    /** One ephemeron-phase visit of a worklist owner: values of live keys become strong. */
    method TraceEphemerons(x: Ref)
      requires Tricolor({}) && error.None? && x in done && x in problem.objects
      requires x in marks || x in problem.sources
      modifies this`marks, this`gray, this`error, this`markedObjects
      ensures error.Some? ==> Marking()
      ensures old(marks) <= marks
      ensures marks == old(marks) && error.None? ==> gray == old(gray)
      ensures error.None? ==> Tricolor({}) && EphemeronsPassed(problem, old(marks), marks, problem.objects[x])
    {
      hide Setup, Colored, Blackened, OwnersRecorded, Below, Met, Traced;
      var o := objects[x];
      MarkedTraced(problem, marks, x);
      for i := 0 to |o|
        invariant Tricolor({}) && old(marks) <= marks
        invariant marks == old(marks) ==> gray == old(gray)
        invariant error.None? ==> forall j | 0 <= j < i :: EphemeronPassed(problem, old(marks), marks, o[j])
      {
        if error.None? {
          SlotMet(problem, x, i);
          if o[i].Strong? && o[i].target.Some? {
            StrongEdgeForced(problem, marks, x, i, o[i].target.value);
            assert o[i].target.value in Refs(o[i]);
            Enqueue(o[i].target.value, {});
          } else if EphemeronActive(o[i]) {
            assert o[i].key.value in Refs(o[i]);
            var live := ReferenceLive(o[i].key.value);
            if error.None? && live && o[i].value.Some? {
              EphemeronValueForced(problem, marks, x, i, o[i].value.value);
              assert o[i].value.value in Refs(o[i]);
              Enqueue(o[i].value.value, {});
            }
          }
        }
      }
    }

    /** Visits every ephemeron owner of the snapshot once and reports whether there was one. */
    method EphemeronPass() returns (found: bool)
      requires Tricolor({}) && error.None? && gray == []
      modifies this`marks, this`gray, this`error, this`markedObjects
      ensures error.Some? ==> Marking()
      ensures old(marks) <= marks
      ensures error.None? ==> Tricolor({})
      ensures error.None? && marks == old(marks) ==> gray == []
      ensures error.None? && !found ==> marks == old(marks)
      ensures error.None? ==> forall j | 0 <= j < |owners| && owners[j].hasEphemeron ::
        found && EphemeronsPassed(problem, old(marks), marks, problem.objects[owners[j].reference])
    {
      hide Setup, Colored, Blackened, Below, FlagsMatch, EphemeronsPassed;
      found := false;
      for i := 0 to |owners|
        invariant error.Some? ==> Marking()
        invariant old(marks) <= marks
        invariant error.None? ==> Tricolor({})
        invariant error.None? && marks == old(marks) ==> gray == []
        invariant error.None? && !found ==> marks == old(marks)
        invariant error.None? ==> forall j | 0 <= j < i && owners[j].hasEphemeron ::
          found && EphemeronsPassed(problem, old(marks), marks, problem.objects[owners[j].reference])
      {
        if error.None? && owners[i].hasEphemeron {
          found := true;
          ghost var before := marks;
          OwnerLive(marks, gray, done, problem.sources, owners[i].reference);
          TraceEphemerons(owners[i].reference);
          forall j | 0 <= j < i && owners[j].hasEphemeron && error.None?
            ensures EphemeronsPassed(problem, old(marks), marks, problem.objects[owners[j].reference])
          {
            EphemeronsPassedMonotone(problem, old(marks), before, old(marks), marks, problem.objects[owners[j].reference]);
          }
          if error.None? {
            EphemeronsPassedMonotone(problem, before, marks, old(marks), marks, problem.objects[owners[i].reference]);
          }
        }
      }
    }

    /** Repeats ephemeron pass and drain until neither marks nor owners grow. */
    method CloseEphemerons()
      requires Tricolor({}) && error.None? && gray == []
      requires problem.seeds * problem.scope <= marks && problem.sources <= done
      modifies this
      ensures error.Some? ==> Marking()
      ensures error.None? ==> Tricolor({}) && gray == [] && done == marks + problem.sources && LeastClosed(problem, marks)
    {
      hide Setup, Colored, Blackened, OwnersRecorded, Below, Closed;
      while true
        invariant error.None? ==> Tricolor({}) && gray == []
        invariant error.Some? ==> Marking()
        invariant problem.seeds * problem.scope <= marks && problem.sources <= done && marks <= problem.scope
        decreases problem.scope - marks, error.None?
      {
        if error.Some? { break; }
        var marksBefore, ownersBefore := markedObjects, |owners|;
        ghost var before := marks;
        var found := EphemeronPass();
        if error.Some? { break; }
        if !found {
          EphemeronFixpoint(problem, marks, gray, done, owners);
          break;
        }
        ghost var passed := marks;
        Drain();
        SubsetSize(before, marks);
        assert marks == before ==> passed == before;
        if error.None? && markedObjects == marksBefore && |owners| == ownersBefore {
          EphemeronFixpoint(problem, marks, gray, done, owners);
          break;
        }
      }
    }

    ghost function Dead(): set<Ref>
      reads this`marks
    {
      problem.scope - marks
    }

    /** What holds while payloads are being rewritten. */
    ghost predicate Weakening()
      reads this
    {
      && Setup() && ErrorExplained()
      && marks <= problem.scope
      && objects.Keys == problem.objects.Keys
    }

    /** The clearing decision for one slot. */
    method ClearedSlot(x: Ref, i: nat, slot: Slot) returns (s: Slot)
      requires Weakening() && error.None? && Traced(problem, x)
      requires i < |problem.objects[x]| && slot == problem.objects[x][i]
      modifies this`error
      ensures Weakening()
      ensures error.None? ==> s == ClearSlot(Dead(), slot)
    {
      hide Setup, Met;
      s := slot;
      SlotMet(problem, x, i);
      match s {
        case Weak(t) =>
          if t.Some? {
            assert t.value in Refs(s);
            var live := ReferenceLive(t.value);
            if !live { s := Weak(None); }
          }
        case Ephemeron(k, _) =>
          var live := false;
          if k.Some? {
            assert k.value in Refs(s);
            live := ReferenceLive(k.value);
          }
          if !live { s := Ephemeron(None, None); }
        case _ =>
      }
    }

    /** Clears the dead weak edges and dead or keyless ephemerons of one owner, slot by slot. */
    method ClearOwner(x: Ref)
      requires Weakening() && error.None? && Traced(problem, x) && objects[x] == problem.objects[x]
      modifies this`objects, this`error
      ensures Weakening()
      ensures error.None? ==> objects == old(objects)[x := ClearObject(Dead(), old(objects)[x])]
      ensures error.Some? ==> exists k: nat | k <= |old(objects)[x]| ::
        objects == old(objects)[x := PartlyCleared(Dead(), old(objects)[x], k)]
    {
      hide Setup, ErrorExplained, ClearObject, PartlyCleared;
      var o := objects[x];
      var i := 0;
      PartlyClearedEnds(Dead(), o);
      while i < |o|
        invariant 0 <= i <= |o| && Weakening() && error.None?
        invariant objects == old(objects)[x := PartlyCleared(Dead(), o, i)]
      {
        PartlyClearedStep(Dead(), o, i);
        var s := ClearedSlot(x, i, o[i]);
        if error.Some? { return; }
        objects := objects[x := objects[x][i := s]];
        i := i + 1;
      }
    }

    /** Queues one record per registration of `x` whose target died, then empties the registration. */
    method FinalizeOwner(x: Ref)
      requires Weakening() && error.None? && Traced(problem, x)
      requires ObjectShrunk(objects[x], problem.objects[x])
      modifies this`objects, this`error, this`pending
      ensures Weakening()
      ensures error.None? ==>
        && objects == old(objects)[x := FinalizeObject(Dead(), old(objects)[x])]
        && pending == old(pending) + ObjectRecords(Dead(), x, old(objects)[x])
      ensures error.Some? ==> exists k: nat | k <= |old(objects)[x]| ::
        && objects == old(objects)[x := PartlyFinalized(Dead(), old(objects)[x], k)]
        && pending == old(pending) + ObjectRecords(Dead(), x, old(objects)[x][..k])
    {
      hide Setup, ErrorExplained, FinalizeObject, PartlyFinalized, ObjectRecords, ObjectShrunk;
      var o := objects[x];
      var i := 0;
      PartlyFinalizedEnds(Dead(), x, o);
      while i < |o|
        invariant 0 <= i <= |o| && Weakening() && error.None?
        invariant objects == old(objects)[x := PartlyFinalized(Dead(), o, i)]
        invariant pending == old(pending) + ObjectRecords(Dead(), x, o[..i])
      {
        PartlyFinalizedStep(Dead(), x, o, i);
        ShrunkSlot(o, problem.objects[x], i);
        FinalizeSlotOf(x, i, o[i]);
        if error.Some? { return; }
        i := i + 1;
      }
    }

    /** One registration callback in the enqueue phase. */
    method FinalizeSlotOf(x: Ref, i: nat, s: Slot)
      requires Weakening() && error.None? && Traced(problem, x) && i < |objects[x]| && objects[x][i] == s
      requires i < |problem.objects[x]| && Refs(s) <= Refs(problem.objects[x][i])
      modifies this`objects, this`error, this`pending
      ensures Weakening()
      ensures error.Some? ==> objects == old(objects) && pending == old(pending)
      ensures error.None? ==>
        && objects == old(objects)[x := old(objects)[x][i := FinalizeSlot(Dead(), s)]]
        && pending == old(pending) + SlotRecords(Dead(), x, s)
    {
      hide Setup, Met;
      SlotMet(problem, x, i);
      assert objects[x][i := s] == objects[x];
      assert objects == objects[x := objects[x][i := s]];
      if FinalizationActive(s) {
        assert s.registered.value in Refs(s);
        var live := ReferenceLive(s.registered.value);
        if error.None? && !live {
          var enqueued := TryEnqueueFinalization(Record(x, s.held));
          if enqueued {
            objects := objects[x := objects[x][i := Finalization(None, None)]];
          }
        }
      }
    }

    /** Appends to the bounded FIFO of cleanup records. */
    method TryEnqueueFinalization(record: Record) returns (enqueued: bool)
      requires error.None? && ErrorExplained()
      modifies this`error, this`pending
      ensures ErrorExplained() && enqueued == error.None?
      ensures enqueued ==> pending == old(pending) + [record]
      ensures !enqueued ==> pending == old(pending)
    {
      if |pending| == pendingLimit {
        error := Some(FinalizationQueueLimit);
        return false;
      }
      var refused: bool := *;
      if refused {
        error := Some(AllocationFailed);
        return false;
      }
      pending := pending + [record];
      return true;
    }

    /** Seeds the queue from exact roots. */
    method MarkRoots(roots: seq<Ref>)
      requires Tricolor({}) && error.None? && Elements(roots) <= problem.seeds
      modifies this`marks, this`gray, this`error, this`markedObjects
      ensures Tricolor({}) && old(marks) <= marks
      ensures error.None? ==> Elements(roots) * problem.scope <= marks
    {
      hide Setup, Colored, Blackened, OwnersRecorded, Below;
      for i := 0 to |roots|
        invariant Tricolor({}) && old(marks) <= marks
        invariant error.None? ==> forall j | 0 <= j < i :: Included(problem, marks, Some(roots[j]))
      {
        assert roots[i] in Elements(roots);
        SeedForced(problem, roots[i]);
        Enqueue(roots[i], {});
      }
    }

    /** Cleanup records kept from earlier collections are roots too. */
    method MarkPending()
      requires Tricolor({}) && error.None?
      modifies this`marks, this`gray, this`error, this`markedObjects
      ensures Tricolor({}) && old(marks) <= marks
      ensures error.None? ==> RecordRefs(queued) * problem.scope <= marks
    {
      hide Setup, Colored, Blackened, OwnersRecorded, Below;
      for i := 0 to |pending|
        invariant Tricolor({}) && old(marks) <= marks
        invariant error.None? ==> forall j | 0 <= j < i ::
          Included(problem, marks, Some(queued[j].owner)) && Included(problem, marks, queued[j].held)
      {
        SetupPending(i);
        SeedForced(problem, pending[i].owner);
        Enqueue(pending[i].owner, {});
        if pending[i].held.Some? {
          SeedForced(problem, pending[i].held.value);
          Enqueue(pending[i].held.value, {});
        }
      }
    }

    lemma SetupPending(i: nat)
      requires Setup() && i < |queued|
      ensures queued[i].owner in problem.seeds && OptionRefs(queued[i].held) <= problem.seeds
    {
      assert queued[i] in queued;
    }

    /** Traces every allocated object on a dirty card and every remembered large owner, once each. */
    method ScanRemembered(chain: seq<nat>)
      requires Tricolor({}) && error.None? && done == {} && minor
      requires NoDuplicates(chain) && problem.sources == DirtySources(problem.objects, spans, chain)
      modifies this
      ensures old(marks) <= marks
      ensures error.Some? ==> Marking()
      ensures error.None? ==> Tricolor({}) && done == problem.sources
    {
      hide Setup, Colored, Blackened, OwnersRecorded, Below, DirtySources;
      assert done == Visited(problem.sources, chain[..0]);
      for k := 0 to |chain|
        invariant old(marks) <= marks
        invariant error.Some? ==> Marking()
        invariant error.None? ==> Tricolor({}) && done == Visited(problem.sources, chain[..k])
      {
        if error.None? {
          ScanSpan(chain, k);
        }
      }
      assert chain[..|chain|] == chain;
      DirtySourcesOnChain(problem.objects, spans, chain);
    }

    /** Walks one span's dirty sources in address order. */
    method ScanSpan(chain: seq<nat>, k: nat)
      requires Tricolor({}) && error.None? && k < |chain|
      requires NoDuplicates(chain) && problem.sources == DirtySources(problem.objects, spans, chain)
      requires done == Visited(problem.sources, chain[..k])
      modifies this
      ensures old(marks) <= marks
      ensures error.Some? ==> Marking()
      ensures error.None? ==> Tricolor({}) && done == Visited(problem.sources, chain[..k + 1])
    {
      hide Setup, Colored, Blackened, OwnersRecorded, Below, DirtySources;
      var id := chain[k];
      var candidates := set r | r in objects && r.span == id && OnDirtyCard(spans, r);
      SpanSources(problem.objects, spans, chain, k, candidates);
      var cursor: nat := 0;
      ghost var start, left := done, candidates;
      while true
        invariant old(marks) <= marks && error.None? && Tricolor({})
        invariant left <= candidates && done == start + (candidates - left)
        invariant forall r | r in candidates :: r in left <==> cursor <= r.offset
        decreases left
      {
        var next := NextReference(candidates, cursor);
        if next.None? { break; }
        var x := next.value;
        assert WellPosed(problem) by { SetupPosed(); }
        ColoredTake(problem, marks, gray, done, x);
        TraceSource(x);
        if error.Some? { return; }
        left, cursor := left - {x}, x.offset + 1;
      }
      assert left == {};
      assert done == start + candidates;
    }

    /** Marks are complete and every live weak owner is on the worklist once, with its flags. */
    ghost predicate Settled()
      reads this
    {
      && Weakening() && LeastClosed(problem, marks)
      && OwnerWorklist(problem, marks, References(owners))
      && OwnersRecorded(problem, owners, marks + problem.sources)
    }

    /** What an aborted run still guarantees about payloads and the cleanup queue. */
    ghost predicate Aborted()
      reads this
    {
      && error.Some? && ErrorExplained()
      && marks <= problem.scope && Below(problem, marks)
      && AllShrunk(objects, problem.objects)
      && queued <= pending && RecordsLive(problem, marks, pending[|queued|..])
      && Interrupted()
    }

    /** Marking has touched no payload, or the weak phases after it have stopped at some slot. */
    ghost predicate Interrupted()
      reads this
    {
      || (objects == problem.objects && pending == queued)
      || (queued <= pending && WeakPhasesStopped(problem, marks, References(owners), objects, pending[|queued|..]))
    }

    /** The clearing phase over the finished worklist. */
    method ClearWeak()
      requires Settled() && error.None? && objects == problem.objects && pending == queued
      modifies this`objects, this`error
      ensures error.Some? ==> Aborted()
      ensures error.None? ==> Settled() && objects == Cleared(problem, Dead(), References(owners))
    {
      hide Setup, ErrorExplained, LeastClosed, OwnersRecorded, OwnerWorklist, Cleared, ClearObject, PartlyCleared, AllShrunk, Below;
      ghost var refs := References(owners);
      LeastBelow(problem, marks);
      WorklistFacts(problem, marks, refs);
      assert refs[..0] == [];
      NothingCleared(problem, Dead());
      for j := 0 to |owners|
        invariant Settled() && error.None?
        invariant objects == Cleared(problem, Dead(), refs[..j])
      {
        ghost var before := objects;
        var x := owners[j].reference;
        assert x == refs[j];
        ClearedStep(problem, Dead(), refs, j);
        LeastTraced(problem, marks, x);
        ClearOwner(x);
        if error.Some? {
          ghost var k: nat :| k <= |before[x]| && objects == before[x := PartlyCleared(Dead(), before[x], k)];
          ClearedShrinks(problem, Dead(), refs[..j]);
          PartlyClearedShrinks(Dead(), before[x], k);
          ShrunkUpdate(before, problem.objects, x, PartlyCleared(Dead(), before[x], k));
          assert pending[|queued|..] == [];
          assert ClearingStopped(problem, Dead(), refs, objects, [], j, k);
          return;
        }
      }
      assert refs[..|refs|] == refs;
    }

    /** The enqueue phase over the owners that have registrations. */
    method EnqueueFinalizations()
      requires Settled() && error.None? && objects == Cleared(problem, Dead(), References(owners)) && pending == queued
      modifies this`objects, this`error, this`pending
      ensures error.Some? ==> Aborted()
      ensures error.None? ==>
        && Settled() && objects == AfterWeakPhases(problem, marks)
        && pending == queued + OwnerRecords(Dead(), problem.objects, References(owners))
    {
      hide Setup, ErrorExplained, LeastClosed, OwnersRecorded, OwnerWorklist, Cleared, Finalized, ClearObject,
        FinalizeObject, PartlyFinalized, ObjectRecords, OwnerRecords, AllShrunk, AfterWeakPhases, Below;
      ghost var refs := References(owners);
      WorklistFacts(problem, marks, refs);
      NothingFinalized(problem, Dead(), refs);
      for j := 0 to |owners|
        invariant Settled() && error.None?
        invariant objects == Finalized(problem, Dead(), refs, refs[..j])
        invariant pending == queued + OwnerRecords(Dead(), problem.objects, refs[..j])
      {
        FinalizeNext(j);
        if error.Some? { return; }
      }
      assert refs[..|refs|] == refs;
      FinalizedComplete(problem, marks, refs);
    }

    method FinalizeNext(j: nat)
      requires Settled() && error.None? && j < |owners|
      requires objects == Finalized(problem, Dead(), References(owners), References(owners)[..j])
      requires pending == queued + OwnerRecords(Dead(), problem.objects, References(owners)[..j])
      modifies this`objects, this`error, this`pending
      ensures error.Some? ==> Aborted()
      ensures error.None? ==>
        && Settled()
        && objects == Finalized(problem, Dead(), References(owners), References(owners)[..j + 1])
        && pending == queued + OwnerRecords(Dead(), problem.objects, References(owners)[..j + 1])
    {
      hide Setup, ErrorExplained, LeastClosed, OwnersRecorded, OwnerWorklist, Finalized, ClearObject, FinalizeObject,
        PartlyFinalized, ObjectRecords, OwnerRecords, RecordsLive, AllShrunk, ObjectShrunk, AnyFinalization, Below;
      ghost var refs := References(owners);
      LeastBelow(problem, marks);
      WorklistFacts(problem, marks, refs);
      var x := owners[j].reference;
      assert x == refs[j];
      OwnerFlags(problem, owners, marks + problem.sources, j);
      FinalizedStep(problem, Dead(), refs, j);
      ghost var o, before, records := objects[x], objects, pending;
      RecordsAfterClearing(Dead(), x, problem.objects[x]);
      FinalizedShrinks(problem, Dead(), refs, refs[..j]);
      AllShrunkAt(objects, problem.objects, x);
      if owners[j].hasFinalization {
        LeastTraced(problem, marks, x);
        FinalizeOwner(x);
        if error.Some? {
          ghost var k: nat :| k <= |o| && objects == before[x := PartlyFinalized(Dead(), o, k)]
                              && pending == records + ObjectRecords(Dead(), x, o[..k]);
          PartlyFinalizedShrinks(Dead(), o, k);
          ShrunkUpdate(before, problem.objects, x, PartlyFinalized(Dead(), o, k));
          AbortedRecordsLive(problem, marks, refs, j, k);
          assert pending[|queued|..] == OwnerRecords(Dead(), problem.objects, refs[..j]) + ObjectRecords(Dead(), x, o[..k]);
          assert QueueingStopped(problem, Dead(), refs, objects, pending[|queued|..], j, k);
        }
      } else {
        ClearingKeepsRegistrations(Dead(), problem.objects[x]);
        NothingToFinalize(Dead(), x, o);
        assert before[x := o] == before;
      }
    }

    /** Runs both weak phases after closure. */
    method CloseWeak()
      requires Tricolor({}) && error.None? && gray == []
      requires problem.seeds * problem.scope <= marks && problem.sources <= done
      modifies this
      ensures error.Some? ==> Aborted()
      ensures error.None? ==> Finished()
    {
      hide Setup, Colored, Blackened, OwnersRecorded, OwnerWorklist, Below, Closed, Cleared, AllShrunk,
        AfterWeakPhases, OwnerRecords;
      CloseEphemerons();
      if error.Some? {
        MarkingAborted();
        return;
      }
      SetupPosed();
      WorklistComplete(problem, marks, owners);
      ClearWeak();
      if error.Some? { return; }
      EnqueueFinalizations();
    }

    lemma MarkingAborted()
      requires Marking() && error.Some?
      ensures Aborted()
    {
    }

    /** The complete result of a successful run. */
    ghost predicate Finished()
      reads this
    {
      && QuotasKept() && LeastClosed(problem, marks)
      && OwnerWorklist(problem, marks, References(owners))
      && objects == AfterWeakPhases(problem, marks)
      && pending == queued + OwnerRecords(problem.scope - marks, problem.objects, References(owners))
    }

    /**
     * A whole collection's marking: roots, pending records, for a minor collection the remembered
     * set, then the queue, the ephemeron closure and the weak phases.
     */
    method Mark(roots: seq<Ref>, chain: seq<nat>)
      requires Tricolor({}) && error.None? && gray == [] && done == {} && marks == {}
      requires problem.seeds == Elements(roots) + RecordRefs(queued)
      requires minor ==> NoDuplicates(chain) && problem.sources == DirtySources(problem.objects, spans, chain)
      requires !minor ==> problem.sources == {}
      modifies this
      ensures error.Some? ==> Aborted()
      ensures error.None? ==> Finished()
      ensures QuotasKept()
    {
      hide Setup, Colored, Blackened, OwnersRecorded, Below, DirtySources, RecordRefs, LeastClosed, OwnerWorklist, AfterWeakPhases, OwnerRecords;
      MarkRoots(roots);
      if error.None? {
        MarkPending();
      }
      if error.None? && minor {
        ScanRemembered(chain);
      }
      if error.None? {
        Drain();
      }
      if error.Some? {
        MarkingAborted();
        return;
      }
      assert problem.seeds * problem.scope == Elements(roots) * problem.scope + RecordRefs(queued) * problem.scope;
      CloseWeak();
    }
  }

  /** Least offset at or after `cursor`: the allocation-bit iterator restricted to candidates. */
  method NextReference(candidates: set<Ref>, cursor: nat) returns (next: Option<Ref>)
    ensures next.None? ==> forall r | r in candidates :: r.offset < cursor
    ensures next.Some? ==> next.value in candidates && cursor <= next.value.offset
    ensures next.Some? ==> forall r | r in candidates && cursor <= r.offset :: next.value.offset <= r.offset
  {
    next := None;
    var rest := candidates;
    while rest != {}
      invariant rest <= candidates
      invariant next.None? ==> forall r | r in candidates - rest :: r.offset < cursor
      invariant next.Some? ==> next.value in candidates && cursor <= next.value.offset
      invariant next.Some? ==> forall r | r in candidates - rest && cursor <= r.offset :: next.value.offset <= r.offset
    {
      var r :| r in rest;
      rest := rest - {r};
      if cursor <= r.offset && (next.None? || r.offset < next.value.offset) {
        next := Some(r);
      }
    }
  }
}
