/** The heap object: allocation, stores with their barrier, and the two collections, step by step. */
module GcHeap {
  import opened Options
  import opened GcObjects
  import opened GcLiveness
  import opened GcWeakPhases
  import opened GcTricolor
  import opened GcMarker
  import opened GcGenerations
  import opened GcCollections
  import opened GcRuns
  import opened GcPartialSweeps
  import opened GcSweepStops

  datatype CollectionError = MarkFailed(cause: MarkError) | SweepFailed

  class Heap {
    const grayLimit: nat
    const ownerLimit: nat
    const pendingLimit: nat
    var objects: map<Ref, Object>
    var spans: map<nat, Span>
    var remembered: seq<nat>
    var young: seq<nat>
    var roots: seq<Ref>
    var pending: seq<Record>

    ghost function Abstract(): State
      reads this
    {
      State(objects, spans, remembered, young, roots, pending)
    }

    constructor (grayLimit: nat, ownerLimit: nat, pendingLimit: nat)
      ensures Abstract() == EMPTY && Valid(Abstract())
    {
      this.grayLimit, this.ownerLimit, this.pendingLimit := grayLimit, ownerLimit, pendingLimit;
      objects, spans, remembered, young, roots, pending := map[], map[], [], [], [], [];
    }

    // ----- Mutator -----

    method LinkRemembered(id: nat)
      modifies this`remembered
      ensures remembered == Link(old(remembered), id)
    {
      if id !in remembered {
        remembered := [id] + remembered;
      }
    }

    /** Publishes a Young object in the slot the span allocator selected. */
    method AllocateYoung(r: Ref, slotCount: nat, o: Object)
      requires Valid(Abstract()) && EdenSlot(Abstract(), r) && Publishable(Abstract(), o)
      modifies this
      ensures AllocatedYoung(old(Abstract()), Abstract(), r, slotCount, o) && Valid(Abstract())
    {
      hide Valid, Publishable;
      if r.span !in spans {
        spans := spans[r.span := Small(Eden, slotCount, {})];
      }
      if r.span !in young {
        young := [r.span] + young;
      }
      objects := objects[r := o];
      AllocatedYoungKeepsValid(old(Abstract()), Abstract(), r, slotCount, o);
    }

    /** Publishes an Old object; its card is dirtied at birth. */
    method AllocateOld(r: Ref, slotCount: nat, o: Object)
      requires Valid(Abstract()) && OldSlot(Abstract(), r) && Publishable(Abstract(), o)
      modifies this
      ensures AllocatedOld(old(Abstract()), Abstract(), r, slotCount, o) && Valid(Abstract())
    {
      hide NoDangling, BarrierContract, AllInert, Publishable;
      if r.span !in spans {
        spans := spans[r.span := Small(Old, slotCount, {})];
      }
      objects := objects[r := o];
      var span := spans[r.span];
      spans := spans[r.span := Small(span.space, span.slotCount, span.cards + {Card(r)})];
      if Card(r) !in span.cards {
        LinkRemembered(r.span);
      }
      AllocatedOldKeepsValid(old(Abstract()), Abstract(), r, slotCount, o);
    }

    /** Publishes a large object, remembered and linked from the start. */
    method AllocateLarge(r: Ref, o: Object)
      requires Valid(Abstract()) && r !in objects && r.span !in spans && r.offset == LARGE_OBJECT_OFFSET
      requires Publishable(Abstract(), o)
      modifies this
      ensures AllocatedLarge(old(Abstract()), Abstract(), r, o) && Valid(Abstract())
    {
      hide Valid, Publishable;
      spans := spans[r.span := Large(true)];
      objects := objects[r := o];
      LinkRemembered(r.span);
      AllocatedLargeKeepsValid(old(Abstract()), Abstract(), r, o);
    }

    /** The post-write barrier: records an Old source that stored a Young target. */
    method RememberOldToYoung(source: Ref, target: Ref) returns (changed: Option<bool>)
      requires ChainsSound(Abstract())
      modifies this`spans, this`remembered
      ensures changed.None? <==> source !in objects || target !in objects
      ensures changed.None? ==> Abstract() == old(Abstract())
      ensures changed.Some? ==>
        if !IsYoung(old(spans), source) && IsYoung(old(spans), target)
        then Abstract() == Remember(old(Abstract()), source)
        else Abstract() == old(Abstract())
      ensures changed.Some? ==> changed.value == (Abstract() != old(Abstract()))
      ensures ChainsSound(Abstract())
    {
      if source !in objects || target !in objects { return None; }
      if !IsYoung(spans, target) || IsYoung(spans, source) { return Some(false); }
      var id := source.span;
      var dirty := OnDirtyCard(spans, source);
      var span := match spans[id]
        case Small(space, n, cards) => Small(space, n, cards + {Card(source)})
        case Large(_) => Large(true);
      assert dirty ==> span == spans[id] && IsDirty(spans[id]);
      spans := spans[id := span];
      if !dirty {
        LinkRemembered(id);
      }
      return Some(!dirty);
    }

    /** Replaces a payload, then runs the barrier over the edges of the slots that were written. */
    method Store(source: Ref, o: Object, written: Object)
      requires Valid(Abstract()) && source in objects && Publishable(Abstract(), o)
      requires forall i | 0 <= i < |o| :: o[i] in objects[source] || o[i] in written
      requires PayloadAllocated(objects, written)
      modifies this
      ensures Stored(old(Abstract()), Abstract(), source, o, written) && Valid(Abstract())
    {
      hide NoDangling, BarrierContract, AllInert, Publishable, HasYoungEdge, Remember;
      objects := objects[source := o];
      ghost var stored := Abstract();
      assert objects.Keys == old(objects).Keys;
      NoYoungEdge(stored);
      assert written[..0] == [];
      for i := 0 to |written|
        invariant ChainsSound(Abstract())
        invariant Abstract() == Published(stored, source, HasYoungEdge(stored.objects, stored.spans, written[..i]))
      {
        YoungEdgePrefix(stored, written, i);
        PublishSlot(source, written[i], stored, HasYoungEdge(stored.objects, stored.spans, written[..i]));
      }
      assert written[..|written|] == written;
      SameObjectsYoungEdge(old(Abstract()), stored, written);
      StoredKeepsValid(old(Abstract()), Abstract(), source, o, written);
    }

    /** The barrier for every edge of one written slot. */
    method PublishSlot(source: Ref, slot: Slot, ghost stored: State, ghost dirty: bool)
      requires source in stored.objects && source.span in stored.spans && Refs(slot) <= stored.objects.Keys
      requires ChainsSound(Abstract()) && Abstract() == Published(stored, source, dirty)
      modifies this`spans, this`remembered
      ensures ChainsSound(Abstract())
      ensures Abstract() == Published(stored, source,
                dirty || exists r :: r in Refs(slot) && YoungRef(stored.objects, stored.spans, r))
    {
      var targets := Refs(slot);
      ghost var seen: set<Ref> := {};
      while targets != {}
        invariant ChainsSound(Abstract()) && Refs(slot) == seen + targets
        invariant Abstract() == Published(stored, source,
                    dirty || exists r :: r in seen && YoungRef(stored.objects, stored.spans, r))
      {
        hide ChainsSound;
        var target :| target in targets;
        assert target in Refs(slot);
        RememberTwice(stored, source);
        var changed := RememberOldToYoung(source, target);
        targets, seen := targets - {target}, seen + {target};
      }
      assert seen == Refs(slot);
    }

    method SetRoots(refs: seq<Ref>)
      requires Valid(Abstract()) && forall r | r in refs :: r in objects
      modifies this`roots
      ensures RootsChanged(old(Abstract()), Abstract()) && roots == refs && Valid(Abstract())
    {
      roots := refs;
      RootsKeepValid(old(Abstract()), Abstract());
    }

    method PopPendingFinalization() returns (record: Option<Record>)
      requires Valid(Abstract())
      modifies this`pending
      ensures record.None? <==> old(pending) == []
      ensures record.None? ==> Abstract() == old(Abstract())
      ensures record.Some? ==> record.value == old(pending)[0] && PendingPopped(old(Abstract()), Abstract())
      ensures Valid(Abstract())
    {
      if pending == [] { return None; }
      record := Some(pending[0]);
      pending := pending[1..];
      PoppedKeepsValid(old(Abstract()), Abstract());
    }

    // ----- Minor collection -----

    /** Retraces `candidates` of one span in address order and returns the cards of those with a Young edge. */
    method YoungCards(candidates: set<Ref>) returns (cards: set<nat>)
      requires candidates <= objects.Keys
      requires forall r, q | r in candidates && q in candidates && r.offset == q.offset :: r == q
      ensures cards == set r | r in candidates && HasYoungEdge(objects, spans, objects[r]) :: Card(r)
    {
      hide HasYoungEdge;
      cards := {};
      var cursor: nat := 0;
      ghost var left := candidates;
      while true
        invariant left <= candidates
        invariant forall r | r in candidates :: r in left <==> cursor <= r.offset
        invariant cards == set r | r in candidates - left && HasYoungEdge(objects, spans, objects[r]) :: Card(r)
        decreases left
      {
        var next := NextReference(candidates, cursor);
        if next.None? { break; }
        var r := next.value;
        if HasYoungEdge(objects, spans, objects[r]) {
          cards := cards + {Card(r)};
        }
        left, cursor := left - {r}, r.offset + 1;
      }
      assert left == {};
    }

    method RebuildSpan(id: nat)
      requires id in spans
      modifies this`spans
      ensures spans == old(spans)[id := RebuiltSpan(objects, old(spans), id)]
    {
      hide HasYoungEdge;
      match spans[id] {
        case Small(space, n, cards) =>
          if space == Old && cards != {} {
            var candidates := set r | r in objects && r.span == id && OnDirtyCard(spans, r);
            var rebuilt := YoungCards(candidates);
            assert rebuilt == RebuiltCards(objects, spans, id);
            spans := spans[id := Small(space, n, rebuilt)];
          } else {
            assert space == Old ==> RebuiltCards(objects, spans, id) == {};
          }
        case Large(remembered) =>
          if remembered {
            var found := exists r :: r in objects && r.span == id && HasYoungEdge(objects, spans, objects[r]);
            spans := spans[id := Large(found)];
          }
      }
    }

    /** Rescans exactly the chained sources and drops clean or vacated spans from the chain. */
    method RebuildRemembered()
      requires NoDuplicates(remembered)
      modifies this`spans, this`remembered
      ensures spans == RebuiltSpans(objects, old(spans), old(remembered))
      ensures NoDuplicates(remembered)
      ensures forall id :: id in remembered <==> id in old(remembered) && id in spans && IsDirty(spans[id])
    {
      hide RebuiltSpan;
      assert spans == RebuiltSpans(objects, spans, []);
      assert remembered[..0] == [];
      for k := 0 to |remembered|
        invariant remembered == old(remembered)
        invariant spans == RebuiltSpans(objects, old(spans), remembered[..k])
      {
        var id := remembered[k];
        RebuiltSpansStep(objects, old(spans), remembered, k);
        if id in spans {
          RebuildSpan(id);
        }
      }
      assert remembered[..|remembered|] == remembered;
      CompactRemembered();
    }

    /** Relinks the chain, keeping dirty Old spans and remembered large owners. */
    method CompactRemembered()
      requires NoDuplicates(remembered)
      modifies this`remembered
      ensures NoDuplicates(remembered)
      ensures forall id :: id in remembered <==> id in old(remembered) && id in spans && IsDirty(spans[id])
    {
      var chain := remembered;
      remembered := [];
      for k := 0 to |chain|
        invariant NoDuplicates(remembered)
        invariant forall id :: id in remembered <==> id in chain[..k] && id in spans && IsDirty(spans[id])
      {
        assert chain[..k + 1] == chain[..k] + [chain[k]];
        if chain[k] in spans && IsDirty(spans[chain[k]]) {
          remembered := [chain[k]] + remembered;
        }
      }
      assert chain[..|chain|] == chain;
    }

    /** Writes promotion cards into every span the following sweep will promote. */
    method PreparePromotions(marks: set<Ref>)
      requires NoDuplicates(young)
      modifies this`spans
      ensures spans == PreparedSpans(objects, old(spans), young, marks)
    {
      hide PreparedSpan;
      assert spans == PreparedSpans(objects, spans, [], marks);
      assert young[..0] == [];
      for k := 0 to |young|
        invariant spans == PreparedSpans(objects, old(spans), young[..k], marks)
      {
        PreparedSpansStep(objects, old(spans), young, marks, k);
        if young[k] in spans {
          PrepareSpan(young[k], marks);
        }
      }
      assert young[..|young|] == young;
    }

    method PrepareSpan(id: nat, marks: set<Ref>)
      requires id in spans
      modifies this`spans
      ensures spans == old(spans)[id := PreparedSpan(objects, old(spans), marks, id)]
    {
      hide HasYoungEdge;
      if IsYoungSpan(spans, id) {
        var live := LiveIn(marks, id);
        if PromotionDue(spans[id].space, |live|, spans[id].slotCount) {
          var candidates := set r | r in objects && r in marks && r.span == id;
          var cards := YoungCards(candidates);
          assert cards == PromotionCards(objects, spans, marks, id);
          spans := spans[id := Small(spans[id].space, spans[id].slotCount, cards)];
        }
      }
    }

    /** Drops the white objects of one span in address order; stops where a drop is refused. */
    method DropWhite(id: nat, marks: set<Ref>) returns (cut: Option<nat>)
      modifies this`objects
      ensures objects == Without(old(objects), WhiteBelow(old(objects), id, cut, marks))
      ensures cut.Some? ==> Ref(id, cut.value) in old(objects) && Ref(id, cut.value) !in marks
    {
      var candidates := set r | r in objects && r.span == id && r !in marks;
      var cursor: nat := 0;
      ghost var left := candidates;
      while true
        invariant left <= candidates && forall r | r in candidates :: r in left <==> cursor <= r.offset
        invariant objects == Without(old(objects), candidates - left)
        decreases left
      {
        var next := NextReference(candidates, cursor);
        if next.None? { break; }
        var refused: bool := *;
        if refused {
          assert candidates - left == WhiteBelow(old(objects), id, Some(next.value.offset), marks);
          return Some(next.value.offset);
        }
        objects := objects - {next.value};
        left, cursor := left - {next.value}, next.value.offset + 1;
      }
      assert candidates - left == WhiteBelow(old(objects), id, None, marks);
      return None;
    }

    /** Sweeps one Young span after another along the chain; stops where a drop or the release of an emptied
        span is refused, and otherwise compacts the chain. */
    method SweepYoung(marks: set<Ref>) returns (stop: YoungStop)
      requires NoDuplicates(young) && NoDuplicates(remembered)
      requires marks <= objects.Keys
      modifies this`objects, this`spans, this`remembered, this`young
      ensures stop.index <= |old(young)|
      ensures objects == Without(old(objects), WhiteVisited(old(objects), old(spans), old(young), marks, stop))
      ensures SweptSpans(old(spans), spans, old(young)[..stop.index], marks)
      ensures NoDuplicates(remembered) && NoDuplicates(young)
      ensures forall id :: id in remembered <==>
        id in old(remembered)
        || (id in old(young)[..stop.index] && IsYoungSpan(old(spans), id) && id in spans && IsDirty(spans[id]))
      ensures stop.index == |old(young)| ==>
        forall id :: id in young <==> id in old(young) && IsYoungSpan(spans, id) && LiveIn(marks, id) != {}
      ensures stop.index < |old(young)| ==>
        young == old(young) && YoungRefused(old(objects), old(spans), old(young)[stop.index], marks, stop.offset)
    {
      hide SweptSpans, SweptSpan, Without, WhiteVisited, WhiteBelow;
      var chain := young;
      var kept: seq<nat> := [];
      SweepStart(objects, spans, chain, marks);
      assert chain[..0] == [];
      for k := 0 to |chain|
        invariant objects == Without(old(objects), WhiteVisited(old(objects), old(spans), chain, marks, YoungStop(k, 0)))
        invariant SweptSpans(old(spans), spans, chain[..k], marks)
        invariant NoDuplicates(remembered) && NoDuplicates(kept) && young == chain
        invariant forall id :: id in remembered <==>
          id in old(remembered) || (id in chain[..k] && IsYoungSpan(old(spans), id) && id in spans && IsDirty(spans[id]))
        invariant forall id :: id in kept <==> id in chain[..k] && IsYoungSpan(spans, id) && LiveIn(marks, id) != {}
      {
        var id := chain[k];
        assert chain[..k + 1] == chain[..k] + [id] && id !in chain[..k];
        UnsweptSpan(old(spans), spans, chain, marks, k);
        ghost var before := spans;
        if IsYoungSpan(spans, id) {
          WhiteStep(old(objects), old(spans), objects, chain, marks, k);
          var cut := SweepYoungSpan(id, marks);
          if cut.Some? { return YoungStop(k, cut.value); }
          SweptSpansStep(old(spans), before, spans, chain, marks, k);
          if IsYoungSpan(spans, id) && LiveIn(marks, id) != {} {
            kept := [id] + kept;
          }
        } else {
          SweptSpansSkip(old(spans), spans, chain, marks, k);
          WhiteSkip(old(objects), old(spans), chain, marks, k);
        }
      }
      assert chain[..|chain|] == chain;
      young := kept;
      return YoungStop(|chain|, 0);
    }

    /** Reserves the release of an emptied span, drops, then pools, releases, ages or promotes the span. */
    method SweepYoungSpan(id: nat, marks: set<Ref>) returns (cut: Option<nat>)
      requires IsYoungSpan(spans, id) && NoDuplicates(remembered)
      modifies this`objects, this`spans, this`remembered
      ensures objects == Without(old(objects), WhiteBelow(old(objects), id, cut, marks))
      ensures cut.None? ==> SweptSpan(old(spans), spans, marks, id)
      ensures forall j | j != id :: j in spans <==> j in old(spans)
      ensures forall j | j != id && j in spans :: spans[j] == old(spans)[j]
      ensures cut.None? ==>
        remembered == if id in spans && IsDirty(spans[id]) then Link(old(remembered), id) else old(remembered)
      ensures cut.Some? ==> spans == old(spans) && remembered == old(remembered)
      ensures cut.Some? ==>
        (cut.value == 0 && LiveIn(marks, id) == {}) || (Ref(id, cut.value) in old(objects) && Ref(id, cut.value) !in marks)
    {
      hide Without;
      var live := LiveIn(marks, id);
      var pooled: bool := *;
      if live == {} && !pooled {
        var reserved: bool := *;
        if !reserved {
          NothingBelow(objects, id, marks);
          return Some(0);
        }
      }
      cut := DropWhite(id, marks);
      if cut.Some? { return; }
      if live == {} {
        if pooled {
          spans := spans[id := Small(Eden, spans[id].slotCount, {})];
        } else {
          spans := spans - {id};
        }
        return;
      }
      spans := spans[id := AdvancedSpan(spans[id], |live|)];
      if IsDirty(spans[id]) {
        LinkRemembered(id);
      }
    }

    /** Failures a collection can report: only refused memory, or quotas below the heap's size. */
    ghost predicate OnlyResourceErrors(error: Option<MarkError>, live: nat, queued: nat) {
      match error
      case None => true
      case Some(InvalidReference(_)) => false
      case Some(GrayQueueLimit) => grayLimit < live
      case Some(WeakOwnerLimit) => ownerLimit < live
      case Some(FinalizationQueueLimit) => queued >= pendingLimit
      case Some(AllocationFailed) => true
    }

    /** What follows a minor mark of `s`: the remembered set is rebuilt, promotions are prepared and the Young chain swept. */
    method SweepMarkedYoung(ghost s: State, ghost garbage: set<Ref>, marks: set<Ref>, ghost owners: seq<Ref>)
      returns (ghost stop: YoungStop, error: Option<CollectionError>)
      requires ChainsSound(s) && NoDuplicates(s.remembered) && NoDuplicates(s.young)
      requires ValidOutside(s, garbage) && CleanGarbage(s, garbage) && marks <= objects.Keys
      requires LeastClosed(MinorProblem(s), marks) && OwnerWorklist(MinorProblem(s), marks, owners)
      requires MinorProblem(s).objects == s.objects
      requires Abstract() == s.(objects := AfterWeakPhases(MinorProblem(s), marks),
                                pending := s.pending + OwnerRecords(MinorProblem(s).scope - marks, s.objects, owners))
      modifies this`objects, this`spans, this`remembered, this`young
      ensures error.None? ==>
        && MinorCollected(s, Abstract(), marks, owners)
        && ValidOutside(Abstract(), garbage * OldObjects(s)) && (garbage == {} ==> Valid(Abstract()))
      ensures error.Some? ==>
        && error == Some(SweepFailed) && MinorStopped(s, Abstract(), marks, owners, stop) && MinorRefusedAt(s, stop)
        && ValidOutside(Abstract(), MinorGarbage(s, garbage, marks, MinorDropped(s, marks, stop)))
    {
      hide Valid, ChainsSound, Closed, LeastClosed, OwnerWorklist, AfterWeakPhases, OwnerRecords, RebuiltSpans, PreparedSpans,
        SweptSpans, Without, MinorCollected, MinorStopped, MinorPartly, MinorProblem, Seeds, DirtySources, ValidOutside, CleanGarbage,
        MinorGarbage, MinorDropped, MinorRefusedAt, OldObjects;
      RebuildRemembered();
      PreparePromotions(marks);
      ghost var middle := Abstract();
      var chained := |young|;
      var reached := SweepYoung(marks);
      stop := reached;
      StopVisited(s, middle, marks, reached);
      PartlyAssembled(s, middle, Abstract(), marks, owners, reached);
      StoppedKeeps(s, garbage, Abstract(), marks, owners, reached);
      if reached.index < chained {
        RefusedBefore(s, middle, marks, reached);
        return stop, Some(SweepFailed);
      }
      assert s.young[..reached.index] == s.young;
      MinorAssembled(s, middle, Abstract(), marks, owners, reached);
      CompletedKeeps(s, garbage, Abstract(), marks, owners, reached);
      return stop, None;
    }

    /** Marks the Young generation from roots and remembered sources, then sweeps it. `garbage` is what failed
        sweeps have left; none of it sits on a dirty card. */
    method CollectMinor(ghost garbage: set<Ref>)
      returns (error: Option<CollectionError>, ghost marks: set<Ref>, ghost owners: seq<Ref>, ghost stop: YoungStop)
      requires ValidOutside(Abstract(), garbage) && CleanGarbage(Abstract(), garbage)
      modifies this
      ensures error.None? ==>
        && MinorCollected(old(Abstract()), Abstract(), marks, owners)
        && ValidOutside(Abstract(), garbage * OldObjects(old(Abstract())))
        && (garbage == {} ==> Valid(Abstract()))
      ensures error.Some? && error.value.MarkFailed? ==>
        && MarkAborted(old(Abstract()), Abstract(), MinorProblem(old(Abstract()))) && ValidOutside(Abstract(), garbage)
        && OnlyResourceErrors(Some(error.value.cause), |old(objects).Keys|, |pending|)
      ensures error == Some(SweepFailed) ==>
        && MinorStopped(old(Abstract()), Abstract(), marks, owners, stop) && MinorRefusedAt(old(Abstract()), stop)
        && ValidOutside(Abstract(), MinorGarbage(old(Abstract()), garbage, marks, MinorDropped(old(Abstract()), marks, stop)))
      ensures |old(pending)| <= pendingLimit ==> |pending| <= pendingLimit
    {
      hide Valid, ChainsSound, WellPosed, Closed, LeastClosed, OwnerWorklist, AfterWeakPhases, OwnerRecords, AllShrunk,
        RebuiltSpans, PreparedSpans, SweptSpans, Without, MinorCollected, MinorStopped, MinorPartly, MarkAborted, WeakPhasesStopped,
        MinorProblem, Seeds, RecordsLive, DirtySources, RecordRefs, Elements, ValidOutside, CleanGarbage, MinorGarbage, MinorDropped,
        Below, Met, MinorRefusedAt, OldObjects;
      ghost var s := Abstract();
      ghost var p := MinorProblem(s);
      stop := YoungStop(0, 0);
      OutsideSound(s, garbage);
      MinorSetup(s);
      var marker := new Marker(true, spans, objects, pending, grayLimit, ownerLimit, pendingLimit, p);
      marker.Mark(roots, remembered);
      objects, pending := marker.objects, marker.pending;
      marks, owners := marker.marks, References(marker.owners);
      if marker.error.Some? {
        AbortAssembled(s, Abstract(), p, marks, owners);
        AbortKeepsOutside(s, garbage, Abstract(), p, marks);
        MarkMeetsAllocated(s, garbage, p);
        error := Some(MarkFailed(marker.error.value));
        return;
      }
      MarksAllocated(p, marks);
      stop, error := SweepMarkedYoung(s, garbage, marker.marks, owners);
    }

    /** Marks everything from roots, then sweeps every span, the highest first. Whatever garbage failed sweeps
        have left, a collection that completes leaves none. */
    method CollectMajor(ghost garbage: set<Ref>)
      returns (error: Option<CollectionError>, ghost marks: set<Ref>, ghost owners: seq<Ref>, ghost stop: Stop)
      requires ValidOutside(Abstract(), garbage)
      modifies this
      ensures error.None? ==> MajorCollected(old(Abstract()), Abstract(), marks, owners) && Valid(Abstract())
      ensures error.Some? && error.value.MarkFailed? ==>
        && MarkAborted(old(Abstract()), Abstract(), MajorProblem(old(Abstract()))) && ValidOutside(Abstract(), garbage)
        && OnlyResourceErrors(Some(error.value.cause), |old(objects).Keys|, |pending|)
      ensures error == Some(SweepFailed) ==>
        && MajorStopped(old(Abstract()), Abstract(), marks, owners, stop) && RefusedAt(old(Abstract()), stop)
        && ValidOutside(Abstract(), Left(MajorProblem(old(Abstract())), marks, MajorDropped(old(Abstract()), marks, stop)))
      ensures |old(pending)| <= pendingLimit ==> |pending| <= pendingLimit
    {
      hide Valid, ChainsSound, WellPosed, Closed, LeastClosed, OwnerWorklist, AfterWeakPhases, OwnerRecords, AllShrunk,
        MarkAborted, WeakPhasesStopped, Seeds, RecordsLive, RecordRefs, Elements, ValidOutside, Left, SweptObjects, KeptSpans, Below, Met,
        MajorStopped, MajorCollected, RefusedAt, Refused, MajorDropped;
      ghost var s := Abstract();
      ghost var p := MajorProblem(s);
      stop := Stop(0, 0);
      OutsideSound(s, garbage);
      MajorSetup(s);
      var marker := new Marker(false, spans, objects, pending, grayLimit, ownerLimit, pendingLimit, p);
      marker.Mark(roots, remembered);
      objects, pending := marker.objects, marker.pending;
      marks, owners := marker.marks, References(marker.owners);
      if marker.error.Some? {
        AbortAssembled(s, Abstract(), p, marks, owners);
        AbortKeepsOutside(s, garbage, Abstract(), p, marks);
        MarkMeetsAllocated(s, garbage, p);
        error := Some(MarkFailed(marker.error.value));
        return;
      }
      MajorMarksAllocated(s, marks);
      var stopped := SweepAll(marker.marks);
      if stopped.Some? {
        stop := stopped.value;
        StoppedSwept(s, Abstract(), marks, owners, stop);
        StopRefused(s, marks, stop);
        MajorStoppedKeeps(s, garbage, Abstract(), marks, owners, stop);
        error := Some(SweepFailed);
        return;
      }
      WhollySwept(s, Abstract(), marks, owners);
      MajorRecovers(s, garbage, Abstract(), marks, owners);
      error := None;
    }

    /** The highest of some span ids. */
    method Highest(ids: set<nat>) returns (top: nat)
      requires ids != {}
      ensures top in ids && forall id | id in ids :: id <= top
    {
      top :| top in ids;
      var rest := ids - {top};
      while rest != {}
        invariant rest <= ids && top in ids && forall id | id in ids :: id in rest || id <= top
      {
        var id :| id in rest;
        rest := rest - {id};
        if top < id { top := id; }
      }
    }

    /** Queues all spans, then sweeps them from the highest down; stops where the worklist cannot grow, or
        where a drop or the release of an emptied span is refused. */
    method SweepAll(marks: set<Ref>) returns (stop: Option<Stop>)
      requires marks <= objects.Keys && forall r | r in objects :: r.span in spans
      modifies this`objects, this`spans
      ensures objects == SweptObjects(old(objects), marks, stop) && spans == KeptSpans(old(spans), marks, stop)
      ensures stop.Some? ==> Refused(old(objects), old(spans), marks, stop.value)
    {
      hide LiveIn;
      var work := spans.Keys;
      ghost var b: nat := 0;
      if work != {} {
        var bound := Highest(work);
        NothingSweptYet(objects, spans, marks, bound);
        var queued: bool := *;
        if !queued { return Some(Stop(bound, 0)); }
        b := bound + 1;
      }
      while work != {}
        invariant forall id :: id in work <==> id in old(spans) && id < b
        invariant objects == SweptFrom(old(objects), marks, b) && spans == KeptFrom(old(spans), marks, b)
        decreases work
      {
        var id := Highest(work);
        assert forall j | j in old(spans) && j < b :: j in work;
        SweptAbove(old(objects), old(spans), marks, id, b);
        work := work - {id};
        var cut := SweepSpan(id, marks);
        if cut.Some? {
          return Some(Stop(id, cut.value));
        }
        b := id;
      }
      AllSwept(old(objects), old(spans), marks, b);
      return None;
    }

    /** Reserves the release of an emptied span, drops its white objects, then releases it. */
    method SweepSpan(id: nat, marks: set<Ref>) returns (cut: Option<nat>)
      requires id in spans
      modifies this`objects, this`spans
      ensures objects == Without(old(objects), WhiteBelow(old(objects), id, cut, marks))
      ensures spans == if cut.None? && LiveIn(marks, id) == {} then old(spans) - {id} else old(spans)
      ensures cut.Some? ==>
        (cut.value == 0 && LiveIn(marks, id) == {}) || (Ref(id, cut.value) in old(objects) && Ref(id, cut.value) !in marks)
    {
      hide Without;
      if LiveIn(marks, id) == {} {
        var reserved: bool := *;
        if !reserved {
          NothingBelow(objects, id, marks);
          return Some(0);
        }
      }
      cut := DropWhite(id, marks);
      if cut.None? && LiveIn(marks, id) == {} {
        spans := spans - {id};
      }
    }
  }

  /** The unmarked objects of span `id` below an offset, or all of them. */
  function WhiteBelow(objects: map<Ref, Object>, id: nat, cut: Option<nat>, marks: set<Ref>): set<Ref> {
    set r | r in objects && r !in marks && r.span == id && (cut.Some? ==> r.offset < cut.value)
  }

  lemma NothingBelow(objects: map<Ref, Object>, id: nat, marks: set<Ref>)
    ensures objects == Without(objects, WhiteBelow(objects, id, Some(0), marks))
  {
  }

  // ----- The major sweep -----

  function SweptObjects(objects: map<Ref, Object>, marks: set<Ref>, stop: Option<Stop>): map<Ref, Object> {
    map r | r in objects && (r in marks || (stop.Some? && !VisitedBefore(stop.value, r))) :: objects[r]
  }

  function KeptSpans(spans: map<nat, Span>, marks: set<Ref>, stop: Option<Stop>): map<nat, Span> {
    map id | id in spans && (LiveIn(marks, id) != {} || (stop.Some? && id <= stop.value.span)) :: spans[id]
  }

  /** What is left once every span from `b` on has been swept. */
  ghost function SweptFrom(objects: map<Ref, Object>, marks: set<Ref>, b: nat): map<Ref, Object> {
    map r | r in objects && (r in marks || r.span < b) :: objects[r]
  }

  ghost function KeptFrom(spans: map<nat, Span>, marks: set<Ref>, b: nat): map<nat, Span> {
    map id | id in spans && (LiveIn(marks, id) != {} || id < b) :: spans[id]
  }

  /** Why a sweep stopped here, in terms of its marks. */
  predicate Refused(objects: map<Ref, Object>, spans: map<nat, Span>, marks: set<Ref>, stop: Stop) {
    || (stop.offset == 0 && stop.span in spans && LiveIn(marks, stop.span) == {})
    || (Ref(stop.span, stop.offset) in objects && Ref(stop.span, stop.offset) !in marks)
    || (forall r | r in objects :: !VisitedBefore(stop, r))
  }

  /** The highest span left is the next one down. */
  lemma SweptAbove(objects: map<Ref, Object>, spans: map<nat, Span>, marks: set<Ref>, id: nat, b: nat)
    requires (forall r | r in objects :: r.span in spans) && id in spans && id < b
    requires forall j | j in spans && j < b :: j <= id
    ensures SweptFrom(objects, marks, b) == SweptFrom(objects, marks, id + 1)
    ensures KeptFrom(spans, marks, b) == KeptFrom(spans, marks, id + 1)
    ensures forall cut: nat ::
      Without(SweptFrom(objects, marks, b), WhiteBelow(SweptFrom(objects, marks, b), id, Some(cut), marks))
      == SweptObjects(objects, marks, Some(Stop(id, cut)))
    ensures KeptFrom(spans, marks, b) == KeptSpans(spans, marks, Some(Stop(id, 0)))
    ensures Without(SweptFrom(objects, marks, b), WhiteBelow(SweptFrom(objects, marks, b), id, None, marks))
      == SweptFrom(objects, marks, id)
    ensures KeptFrom(spans, marks, id) ==
      if LiveIn(marks, id) == {} then KeptFrom(spans, marks, b) - {id} else KeptFrom(spans, marks, b)
  {
    hide LiveIn;
  }

  lemma NothingSweptYet(objects: map<Ref, Object>, spans: map<nat, Span>, marks: set<Ref>, bound: nat)
    requires (forall r | r in objects :: r.span in spans) && forall id | id in spans :: id <= bound
    ensures objects == SweptObjects(objects, marks, Some(Stop(bound, 0))) && spans == KeptSpans(spans, marks, Some(Stop(bound, 0)))
    ensures objects == SweptFrom(objects, marks, bound + 1) && spans == KeptFrom(spans, marks, bound + 1)
    ensures Refused(objects, spans, marks, Stop(bound, 0))
  {
    hide LiveIn;
  }

  lemma AllSwept(objects: map<Ref, Object>, spans: map<nat, Span>, marks: set<Ref>, b: nat)
    requires (forall r | r in objects :: r.span in spans) && forall id | id in spans :: id >= b
    ensures SweptFrom(objects, marks, b) == SweptObjects(objects, marks, None)
    ensures KeptFrom(spans, marks, b) == KeptSpans(spans, marks, None)
  {
    hide LiveIn;
  }

  ghost function MajorDropped(s: State, marks: set<Ref>, stop: Stop): set<Ref> {
    DeadIn(MajorProblem(s), marks, MajorBefore(stop))
  }

  lemma MajorMarksAllocated(s: State, marks: set<Ref>)
    requires LeastClosed(MajorProblem(s), marks) && ChainsSound(s)
    ensures marks <= s.objects.Keys && marks <= AfterWeakPhases(MajorProblem(s), marks).Keys
    ensures forall r | r in AfterWeakPhases(MajorProblem(s), marks) :: r.span in s.spans
  {
  }

  /** What a major collection's sweep leaves where it stops. */
  lemma StoppedSwept(s: State, s': State, marks: set<Ref>, owners: seq<Ref>, stop: Stop)
    requires LeastClosed(MajorProblem(s), marks) && OwnerWorklist(MajorProblem(s), marks, owners)
    requires s'.objects == SweptObjects(AfterWeakPhases(MajorProblem(s), marks), marks, Some(stop))
    requires s'.spans == KeptSpans(s.spans, marks, Some(stop))
    requires s'.remembered == s.remembered && s'.young == s.young && s'.roots == s.roots
    requires s'.pending == s.pending + OwnerRecords(MajorProblem(s).scope - marks, s.objects, owners)
    ensures MajorStopped(s, s', marks, owners, stop)
  {
    hide LeastClosed, OwnerWorklist, OwnerRecords, LiveIn;
    AfterWeakPhasesShrinks(MajorProblem(s), marks);
  }

  lemma StopRefused(s: State, marks: set<Ref>, stop: Stop)
    requires LeastClosed(MajorProblem(s), marks)
    requires Refused(AfterWeakPhases(MajorProblem(s), marks), s.spans, marks, stop)
    ensures RefusedAt(s, stop)
  {
    hide LeastClosed, AfterWeakPhases, Dead, MajorProblem;
    var p := MajorProblem(s);
    MajorScope(s);
    AfterWeakPhasesShrinks(p, marks);
    if stop.offset == 0 && stop.span in s.spans && LiveIn(marks, stop.span) == {} {
      UnmarkedEmptied(s, p, marks, stop.span);
    } else if Ref(stop.span, stop.offset) in s.objects && Ref(stop.span, stop.offset) !in marks {
      DeadIffWhite(p, marks, Ref(stop.span, stop.offset));
    }
  }

  lemma MajorScope(s: State)
    ensures MajorProblem(s).scope == s.objects.Keys && MajorProblem(s).objects == s.objects
  {
  }

  /** A span of collectable objects without a marked one is emptied. */
  lemma UnmarkedEmptied(s: State, p: Problem, marks: set<Ref>, id: nat)
    requires LeastClosed(p, marks) && id in s.spans && LiveIn(marks, id) == {}
    requires forall r | r in s.objects && r.span == id :: r in p.scope
    ensures Emptied(s, p, id)
  {
    hide LeastClosed, Dead;
    forall r | r in s.objects && r.span == id ensures Dead(p, r) {
      assert r !in LiveIn(marks, id);
      DeadIffWhite(p, marks, r);
    }
  }

  lemma WhollySwept(s: State, s': State, marks: set<Ref>, owners: seq<Ref>)
    requires LeastClosed(MajorProblem(s), marks) && OwnerWorklist(MajorProblem(s), marks, owners)
    requires s'.objects == SweptObjects(AfterWeakPhases(MajorProblem(s), marks), marks, None)
    requires s'.spans == KeptSpans(s.spans, marks, None)
    requires s'.remembered == s.remembered && s'.young == s.young && s'.roots == s.roots
    requires s'.pending == s.pending + OwnerRecords(MajorProblem(s).scope - marks, s.objects, owners)
    ensures MajorCollected(s, s', marks, owners)
  {
    hide LeastClosed, OwnerWorklist, OwnerRecords;
    AfterWeakPhasesShrinks(MajorProblem(s), marks);
  }

  lemma MajorStoppedKeeps(s: State, g: set<Ref>, s': State, marks: set<Ref>, owners: seq<Ref>, stop: Stop)
    requires ValidOutside(s, g) && MajorStopped(s, s', marks, owners, stop)
    ensures ValidOutside(s', Left(MajorProblem(s), marks, MajorDropped(s, marks, stop)))
  {
    hide ValidOutside, MajorPartly, MajorStopped, Left, DeadIn;
    MajorStoppedPartly(s, s', marks, owners, stop);
    MajorPartlyKeeps(s, g, s', marks, owners, MajorDropped(s, marks, stop));
  }

  lemma OutsideSound(s: State, g: set<Ref>)
    requires ValidOutside(s, g)
    ensures ChainsSound(s)
  {
  }

  // ----- The minor sweep -----

  /** Unmarked objects of the Young spans before the stop. */
  ghost function WhiteVisited(
    objects: map<Ref, Object>, spans: map<nat, Span>, chain: seq<nat>, marks: set<Ref>, stop: YoungStop): set<Ref>
  {
    set r | r in objects && r !in marks && IsYoung(spans, r) && VisitedOnChain(chain, stop, r)
  }

  /** Why a Young sweep stopped in span `id`, in terms of its marks. */
  predicate YoungRefused(objects: map<Ref, Object>, spans: map<nat, Span>, id: nat, marks: set<Ref>, offset: nat) {
    && IsYoungSpan(spans, id)
    && ((offset == 0 && LiveIn(marks, id) == {}) || (Ref(id, offset) in objects && Ref(id, offset) !in marks))
  }

  ghost function MinorDropped(s: State, marks: set<Ref>, stop: YoungStop): set<Ref> {
    DeadIn(MinorProblem(s), marks, MinorBefore(s.young, stop))
  }

  /** What the sweep has dropped are the dead objects it visited. */
  lemma StopVisited(s: State, middle: State, marks: set<Ref>, stop: YoungStop)
    requires middle.objects == AfterWeakPhases(MinorProblem(s), marks)
    requires middle.spans == PreparedSpans(middle.objects, RebuiltSpans(middle.objects, s.spans, s.remembered), s.young, marks)
    ensures WhiteVisited(middle.objects, middle.spans, s.young, marks, stop) == MinorDropped(s, marks, stop)
  {
    hide RebuiltSpans, PreparedSpans, Seeds, DirtySources;
    AfterWeakPhasesShrinks(MinorProblem(s), marks);
    PreparationKeepsGenerations(s, middle, marks);
  }

  lemma RefusedBefore(s: State, middle: State, marks: set<Ref>, stop: YoungStop)
    requires LeastClosed(MinorProblem(s), marks)
    requires middle.objects == AfterWeakPhases(MinorProblem(s), marks)
    requires middle.spans == PreparedSpans(middle.objects, RebuiltSpans(middle.objects, s.spans, s.remembered), s.young, marks)
    requires stop.index < |s.young| && YoungRefused(middle.objects, middle.spans, s.young[stop.index], marks, stop.offset)
    ensures MinorRefusedAt(s, stop)
  {
    hide LeastClosed, AfterWeakPhases, RebuiltSpans, PreparedSpans, MinorProblem, Dead, Emptied;
    var p, id := MinorProblem(s), s.young[stop.index];
    MinorScope(s, id);
    AfterWeakPhasesShrinks(p, marks);
    PreparationKeepsGenerations(s, middle, marks);
    if stop.offset == 0 && LiveIn(marks, id) == {} {
      UnmarkedEmptied(s, p, marks, id);
    } else {
      DeadIffWhite(p, marks, Ref(id, stop.offset));
    }
  }

  lemma MinorScope(s: State, id: nat)
    ensures MinorProblem(s).objects == s.objects && MinorProblem(s).scope <= s.objects.Keys
    ensures IsYoungSpan(s.spans, id) ==> forall r | r in s.objects && r.span == id :: r in MinorProblem(s).scope
  {
  }

  lemma StoppedKeeps(s: State, g: set<Ref>, s': State, marks: set<Ref>, owners: seq<Ref>, stop: YoungStop)
    requires ValidOutside(s, g) && CleanGarbage(s, g) && MinorStopped(s, s', marks, owners, stop)
    ensures ValidOutside(s', MinorGarbage(s, g, marks, MinorDropped(s, marks, stop)))
  {
    hide ValidOutside, CleanGarbage, MinorPartly, MinorGarbage, DeadIn;
    MinorPartlyKeeps(s, g, s', marks, owners, s.young[..stop.index], MinorDropped(s, marks, stop));
  }

  /** A completed minor collection leaves only older garbage. */
  lemma CompletedKeeps(s: State, g: set<Ref>, s': State, marks: set<Ref>, owners: seq<Ref>, stop: YoungStop)
    requires ChainsSound(s) && ValidOutside(s', MinorGarbage(s, g, marks, MinorDropped(s, marks, stop)))
    requires stop.index == |s.young|
    ensures ValidOutside(s', g * OldObjects(s)) && (g == {} ==> Valid(s'))
  {
    hide ValidOutside, Seeds, DirtySources;
    var p := MinorProblem(s);
    forall r | r in p.scope - marks ensures VisitedOnChain(s.young, stop, r) {
      var i :| 0 <= i < |s.young| && s.young[i] == r.span;
    }
    assert MinorGarbage(s, g, marks, MinorDropped(s, marks, stop)) == g * OldObjects(s);
    assert g == {} ==> g * OldObjects(s) == {};
    ValidWithoutGarbage(s');
  }

  lemma PartlyAssembled(s: State, middle: State, s': State, marks: set<Ref>, owners: seq<Ref>, stop: YoungStop)
    requires ChainsSound(s) && stop.index <= |s.young|
    requires LeastClosed(MinorProblem(s), marks) && OwnerWorklist(MinorProblem(s), marks, owners)
    requires middle.objects == AfterWeakPhases(MinorProblem(s), marks)
    requires middle.spans ==
      PreparedSpans(middle.objects, RebuiltSpans(middle.objects, s.spans, s.remembered), s.young, marks)
    requires var rebuilt := RebuiltSpans(middle.objects, s.spans, s.remembered);
      forall id :: id in middle.remembered <==> (id in s.remembered && id in rebuilt && IsDirty(rebuilt[id]))
    requires s'.objects == Without(middle.objects, MinorDropped(s, marks, stop))
    requires SweptSpans(middle.spans, s'.spans, s.young[..stop.index], marks)
    requires NoDuplicates(s'.remembered) && NoDuplicates(s'.young)
    requires if stop.index < |s.young| then s'.young == s.young
      else forall id :: id in s'.young <==> id in s.young && IsYoungSpan(s'.spans, id) && LiveIn(marks, id) != {}
    requires forall id :: id in s'.remembered <==>
      (id in middle.remembered
       || (id in s.young[..stop.index] && IsYoungSpan(middle.spans, id) && id in s'.spans && IsDirty(s'.spans[id])))
    requires s'.roots == s.roots
    requires s'.pending == s.pending + OwnerRecords(MinorProblem(s).scope - marks, s.objects, owners)
    ensures MinorStopped(s, s', marks, owners, stop)
  {
    hide LeastClosed, OwnerWorklist, OwnerRecords, RebuiltCards, PromotionCards, Closed, PreparedSpans, RebuiltSpans, SweptSpans,
      Seeds, DirtySources, LiveIn;
    AfterWeakPhasesShrinks(MinorProblem(s), marks);
    PreparationKeepsGenerations(s, middle, marks);
    PartlyRemembered(s, middle, s', marks, s.young[..stop.index]);
    FinishedDropped(s, MinorProblem(s), marks, stop);
  }

  lemma PartlyRemembered(s: State, middle: State, s': State, marks: set<Ref>, done: seq<nat>)
    requires ChainsSound(s)
    requires middle.spans ==
      PreparedSpans(middle.objects, RebuiltSpans(middle.objects, s.spans, s.remembered), s.young, marks)
    requires var rebuilt := RebuiltSpans(middle.objects, s.spans, s.remembered);
      forall id :: id in middle.remembered <==> (id in s.remembered && id in rebuilt && IsDirty(rebuilt[id]))
    requires SweptSpans(middle.spans, s'.spans, done, marks)
    requires forall id :: id in s'.remembered <==>
      (id in middle.remembered || (id in done && IsYoungSpan(middle.spans, id) && id in s'.spans && IsDirty(s'.spans[id])))
    ensures forall id | id in s'.spans && IsDirty(s'.spans[id]) :: id in s'.remembered
  {
    hide RebuiltCards, PromotionCards, PromotionDue, RebuiltSpan;
    PreparationKeepsGenerations(s, middle, marks);
    forall id | id in s'.spans && IsDirty(s'.spans[id]) ensures id in s'.remembered {
      if id in s.spans && !(id in done && IsYoungSpan(middle.spans, id)) {
        assert s'.spans[id] == middle.spans[id];
      }
    }
  }

  /** The state once a store's edges so far have been published. */
  ghost function Published(stored: State, source: Ref, dirty: bool): State
    requires source.span in stored.spans
  {
    if !IsYoung(stored.spans, source) && dirty then Remember(stored, source) else stored
  }

  lemma RememberTwice(s: State, source: Ref)
    requires source.span in s.spans
    ensures Remember(Remember(s, source), source) == Remember(s, source)
    ensures Remember(s, source).objects == s.objects
    ensures forall id :: IsYoungSpan(Remember(s, source).spans, id) <==> IsYoungSpan(s.spans, id)
  {
  }

  lemma NoYoungEdge(s: State)
    ensures !HasYoungEdge(s.objects, s.spans, [])
  {
  }

  lemma YoungEdgePrefix(s: State, o: Object, i: nat)
    requires i < |o|
    ensures HasYoungEdge(s.objects, s.spans, o[..i + 1]) <==>
            HasYoungEdge(s.objects, s.spans, o[..i]) || exists r :: r in Refs(o[i]) && YoungRef(s.objects, s.spans, r)
  {
    assert forall j | 0 <= j < i :: o[..i][j] == o[..i + 1][j];
    if HasYoungEdge(s.objects, s.spans, o[..i]) {
      var j :| 0 <= j < i && exists r :: r in Refs(o[..i][j]) && YoungRef(s.objects, s.spans, r);
      assert o[..i + 1][j] == o[..i][j];
    }
    if exists r :: r in Refs(o[i]) && YoungRef(s.objects, s.spans, r) {
      assert o[..i + 1][i] == o[i];
    }
  }

  lemma SameObjectsYoungEdge(s: State, t: State, o: Object)
    requires s.objects.Keys == t.objects.Keys && s.spans == t.spans
    ensures HasYoungEdge(s.objects, s.spans, o) <==> HasYoungEdge(t.objects, t.spans, o)
  {
    forall r ensures YoungRef(s.objects, s.spans, r) <==> YoungRef(t.objects, t.spans, r) {
    }
  }

  lemma RebuiltSpansStep(objects: map<Ref, Object>, spans: map<nat, Span>, chain: seq<nat>, k: nat)
    requires k < |chain| && NoDuplicates(chain)
    ensures var done := RebuiltSpans(objects, spans, chain[..k]);
      RebuiltSpans(objects, spans, chain[..k + 1]) ==
        if chain[k] in done then done[chain[k] := RebuiltSpan(objects, done, chain[k])] else done
  {
    hide HasYoungEdge;
    var done, id := RebuiltSpans(objects, spans, chain[..k]), chain[k];
    assert chain[..k + 1] == chain[..k] + [id] && id !in chain[..k];
    if id in spans {
      assert done[id] == spans[id];
      forall o ensures HasYoungEdge(objects, done, o) <==> HasYoungEdge(objects, spans, o) {
        SameYoungEdge(objects, done, spans, o);
      }
      assert RebuiltCards(objects, done, id) == RebuiltCards(objects, spans, id);
      assert RebuiltSpan(objects, done, id) == RebuiltSpan(objects, spans, id);
    }
  }

  lemma PreparedSpansStep(objects: map<Ref, Object>, spans: map<nat, Span>, chain: seq<nat>, marks: set<Ref>, k: nat)
    requires k < |chain| && NoDuplicates(chain)
    ensures var done := PreparedSpans(objects, spans, chain[..k], marks);
      PreparedSpans(objects, spans, chain[..k + 1], marks) ==
        if chain[k] in done then done[chain[k] := PreparedSpan(objects, done, marks, chain[k])] else done
  {
    hide HasYoungEdge, PromotionDue;
    var done, id := PreparedSpans(objects, spans, chain[..k], marks), chain[k];
    assert chain[..k + 1] == chain[..k] + [id] && id !in chain[..k];
    if id in spans {
      assert done[id] == spans[id];
      forall o ensures HasYoungEdge(objects, done, o) <==> HasYoungEdge(objects, spans, o) {
        SameYoungEdge(objects, done, spans, o);
      }
      assert PromotionCards(objects, done, marks, id) == PromotionCards(objects, spans, marks, id);
      assert PreparedSpan(objects, done, marks, id) == PreparedSpan(objects, spans, marks, id);
    }
  }

  lemma SweepStart(objects: map<Ref, Object>, spans: map<nat, Span>, chain: seq<nat>, marks: set<Ref>)
    ensures objects == Without(objects, WhiteVisited(objects, spans, chain, marks, YoungStop(0, 0)))
    ensures SweptSpans(spans, spans, [], marks)
  {
  }

  lemma UnsweptSpan(spans: map<nat, Span>, swept: map<nat, Span>, chain: seq<nat>, marks: set<Ref>, k: nat)
    requires k < |chain| && NoDuplicates(chain) && SweptSpans(spans, swept, chain[..k], marks)
    ensures chain[k] in swept <==> chain[k] in spans
    ensures chain[k] in spans ==> swept[chain[k]] == spans[chain[k]]
  {
  }

  lemma SweptSpansStep(spans: map<nat, Span>, before: map<nat, Span>, after: map<nat, Span>, chain: seq<nat>, marks: set<Ref>, k: nat)
    requires k < |chain| && NoDuplicates(chain) && SweptSpans(spans, before, chain[..k], marks)
    requires IsYoungSpan(before, chain[k]) && SweptSpan(before, after, marks, chain[k])
    requires forall j | j != chain[k] :: j in after <==> j in before
    requires forall j | j != chain[k] && j in after :: after[j] == before[j]
    ensures SweptSpans(spans, after, chain[..k + 1], marks)
  {
    assert chain[..k + 1] == chain[..k] + [chain[k]];
    UnsweptSpan(spans, before, chain, marks, k);
  }

  lemma SweptSpansSkip(spans: map<nat, Span>, swept: map<nat, Span>, chain: seq<nat>, marks: set<Ref>, k: nat)
    requires k < |chain| && NoDuplicates(chain) && SweptSpans(spans, swept, chain[..k], marks)
    requires !IsYoungSpan(swept, chain[k])
    ensures SweptSpans(spans, swept, chain[..k + 1], marks)
  {
    assert chain[..k + 1] == chain[..k] + [chain[k]];
    UnsweptSpan(spans, swept, chain, marks, k);
  }

  lemma WhiteStep(
    objects: map<Ref, Object>, spans: map<nat, Span>, rest: map<Ref, Object>, chain: seq<nat>, marks: set<Ref>, k: nat)
    requires k < |chain| && IsYoungSpan(spans, chain[k]) && NoDuplicates(chain)
    requires rest == Without(objects, WhiteVisited(objects, spans, chain, marks, YoungStop(k, 0)))
    ensures forall cut: nat ::
      Without(rest, WhiteBelow(rest, chain[k], Some(cut), marks))
      == Without(objects, WhiteVisited(objects, spans, chain, marks, YoungStop(k, cut)))
    ensures Without(rest, WhiteBelow(rest, chain[k], None, marks))
      == Without(objects, WhiteVisited(objects, spans, chain, marks, YoungStop(k + 1, 0)))
    ensures rest.Keys <= objects.Keys
  {
    forall r, cut: nat | r in objects
      ensures VisitedOnChain(chain, YoungStop(k, cut), r) <==>
        VisitedOnChain(chain, YoungStop(k, 0), r) || (r.span == chain[k] && r.offset < cut)
      ensures VisitedOnChain(chain, YoungStop(k + 1, 0), r) <==> VisitedOnChain(chain, YoungStop(k, 0), r) || r.span == chain[k]
    {
    }
  }

  lemma WhiteSkip(objects: map<Ref, Object>, spans: map<nat, Span>, chain: seq<nat>, marks: set<Ref>, k: nat)
    requires k < |chain| && !IsYoungSpan(spans, chain[k])
    ensures WhiteVisited(objects, spans, chain, marks, YoungStop(k, 0))
      == WhiteVisited(objects, spans, chain, marks, YoungStop(k + 1, 0))
  {
  }

  lemma MarksAllocated(p: Problem, marks: set<Ref>)
    requires WellPosed(p) && LeastClosed(p, marks)
    ensures marks <= AfterWeakPhases(p, marks).Keys
  {
  }

  lemma MinorSetup(s: State)
    requires ChainsSound(s)
    ensures WellPosed(MinorProblem(s)) && MinorProblem(s).objects == s.objects
    ensures forall r | r in s.objects :: r in MinorProblem(s).scope <==> IsYoung(s.spans, r)
    ensures forall rec | rec in s.pending :: rec.owner in MinorProblem(s).seeds && OptionRefs(rec.held) <= MinorProblem(s).seeds
    ensures MinorProblem(s).seeds == Elements(s.roots) + RecordRefs(s.pending)
    ensures MinorProblem(s).sources == DirtySources(s.objects, s.spans, s.remembered)
    ensures NoDuplicates(s.remembered) && NoDuplicates(s.young)
  {
    DirtySourcesAreOld(s);
    PendingAreSeeds(s);
  }

  lemma MajorSetup(s: State)
    requires ChainsSound(s)
    ensures WellPosed(MajorProblem(s))
    ensures forall rec | rec in s.pending :: rec.owner in Seeds(s) && OptionRefs(rec.held) <= Seeds(s)
    ensures Seeds(s) == Elements(s.roots) + RecordRefs(s.pending)
    ensures NoDuplicates(s.remembered)
  {
    PendingAreSeeds(s);
  }

  lemma PendingAreSeeds(s: State)
    ensures forall rec | rec in s.pending :: rec.owner in Seeds(s) && OptionRefs(rec.held) <= Seeds(s)
  {
    forall rec | rec in s.pending ensures rec.owner in Seeds(s) && OptionRefs(rec.held) <= Seeds(s) {
      var i :| 0 <= i < |s.pending| && s.pending[i] == rec;
      assert forall r | r in {rec.owner} + OptionRefs(rec.held) :: r in RecordRefs(s.pending);
      assert rec.owner in {rec.owner} + OptionRefs(rec.held);
    }
  }

  lemma AbortAssembled(s: State, s': State, p: Problem, marks: set<Ref>, owners: seq<Ref>)
    requires p.objects == s.objects && AllShrunk(s'.objects, s.objects)
    requires s' == s.(objects := s'.objects, pending := s'.pending)
    requires s.pending <= s'.pending && RecordsLive(p, marks, s'.pending[|s.pending|..])
    requires (s'.objects == s.objects && s'.pending == s.pending)
             || WeakPhasesStopped(p, marks, owners, s'.objects, s'.pending[|s.pending|..])
    ensures MarkAborted(s, s', p)
  {
    hide WeakPhasesStopped;
    forall rec | rec in s'.pending[|s.pending|..]
      ensures rec.owner in s.objects
        && exists j :: 0 <= j < |s.objects[rec.owner]| && StrongTarget(s.objects[rec.owner][j]) == rec.held
    {
      var i :| 0 <= i < |s'.pending[|s.pending|..]| && s'.pending[|s.pending|..][i] == rec;
      assert RecordLive(p, marks, rec);
    }
  }

  /** The sweep of the Young chain frees exactly the unmarked Young objects. */
  lemma MinorAssembled(s: State, middle: State, s': State, marks: set<Ref>, owners: seq<Ref>, stop: YoungStop)
    requires ChainsSound(s) && stop.index == |s.young|
    requires LeastClosed(MinorProblem(s), marks) && OwnerWorklist(MinorProblem(s), marks, owners)
    requires middle.objects == AfterWeakPhases(MinorProblem(s), marks)
    requires middle.spans ==
      PreparedSpans(middle.objects, RebuiltSpans(middle.objects, s.spans, s.remembered), s.young, marks)
    requires var rebuilt := RebuiltSpans(middle.objects, s.spans, s.remembered);
      forall id :: id in middle.remembered <==> (id in s.remembered && id in rebuilt && IsDirty(rebuilt[id]))
    requires s'.objects == Without(middle.objects, MinorDropped(s, marks, stop))
    requires SweptSpans(middle.spans, s'.spans, s.young, marks)
    requires NoDuplicates(s'.remembered) && NoDuplicates(s'.young)
    requires forall id :: id in s'.remembered <==>
      (id in middle.remembered || (id in s.young && IsYoungSpan(middle.spans, id) && id in s'.spans && IsDirty(s'.spans[id])))
    requires forall id :: id in s'.young <==> id in s.young && IsYoungSpan(s'.spans, id) && LiveIn(marks, id) != {}
    requires s'.roots == s.roots
    requires s'.pending == s.pending + OwnerRecords(MinorProblem(s).scope - marks, s.objects, owners)
    ensures MinorCollected(s, s', marks, owners)
  {
    hide LeastClosed, OwnerWorklist, OwnerRecords, RebuiltCards, PromotionCards, Closed;
    AfterWeakPhasesShrinks(MinorProblem(s), marks);
    PreparationKeepsGenerations(s, middle, marks);
    assert s.young[..stop.index] == s.young;
    FinishedDropped(s, MinorProblem(s), marks, stop);
    assert MinorDropped(s, marks, stop) == MinorProblem(s).scope - marks;
    RememberedIsDirty(s, middle, s', marks);
  }

  lemma PreparationKeepsGenerations(s: State, middle: State, marks: set<Ref>)
    requires middle.spans ==
      PreparedSpans(middle.objects, RebuiltSpans(middle.objects, s.spans, s.remembered), s.young, marks)
    ensures middle.spans.Keys == s.spans.Keys
    ensures forall id :: IsYoungSpan(middle.spans, id) <==> IsYoungSpan(s.spans, id)
    ensures forall id | id in s.spans ::
      IsDirty(middle.spans[id]) <==> IsDirty(RebuiltSpans(middle.objects, s.spans, s.remembered)[id])
  {
    hide RebuiltCards, PromotionCards;
  }

  lemma RememberedIsDirty(s: State, middle: State, s': State, marks: set<Ref>)
    requires ChainsSound(s)
    requires middle.spans ==
      PreparedSpans(middle.objects, RebuiltSpans(middle.objects, s.spans, s.remembered), s.young, marks)
    requires var rebuilt := RebuiltSpans(middle.objects, s.spans, s.remembered);
      forall id :: id in middle.remembered <==> (id in s.remembered && id in rebuilt && IsDirty(rebuilt[id]))
    requires SweptSpans(middle.spans, s'.spans, s.young, marks)
    requires forall id :: id in s'.remembered <==>
      (id in middle.remembered || (id in s.young && IsYoungSpan(middle.spans, id) && id in s'.spans && IsDirty(s'.spans[id])))
    ensures forall id :: id in s'.remembered <==> id in s'.spans && IsDirty(s'.spans[id])
  {
    hide RebuiltCards, PromotionCards, PromotionDue, RebuiltSpan;
    PreparationKeepsGenerations(s, middle, marks);
    forall id ensures id in s'.remembered <==> id in s'.spans && IsDirty(s'.spans[id]) {
      if id in s.spans && !(id in s.young && IsYoungSpan(middle.spans, id)) {
        assert s'.spans[id] == middle.spans[id];
      }
    }
  }
}
