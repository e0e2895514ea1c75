/**
 * Where a sweep may stop, and when it then leaves dangling references: told from the heap before the
 * collection.
 */
module GcSweepStops {
  import opened Options
  import opened GcObjects
  import opened GcLiveness
  import opened GcWeakPhases
  import opened GcTricolor
  import opened GcGenerations
  import opened GcCollections
  import opened GcPartialSweeps

  /** Nothing keeps `r`: some closed set does without it. */
  ghost predicate Dead(p: Problem, r: Ref) { r in p.scope && !Forced(p, r) }

  lemma DeadIffWhite(p: Problem, marks: set<Ref>, r: Ref)
    requires LeastClosed(p, marks)
    ensures Dead(p, r) <==> r in p.scope - marks
  {
    hide Closed;
    if r in marks {
      assert forall t: set<Ref> | Closed(p, t) :: marks <= t;
    }
  }

  /** No dead object that a sweep has yet to visit names a dead one before it. */
  ghost predicate CutClean(p: Problem, before: iset<Ref>) {
    forall r, i, q | r in p.objects && Dead(p, r) && 0 <= i < |p.objects[r]| && q in Refs(p.objects[r][i]) && Dead(p, q) ::
      q in before ==> r in before
  }

  /** The dead objects among those visited. */
  ghost function DeadIn(p: Problem, marks: set<Ref>, before: iset<Ref>): set<Ref> {
    set r | r in p.scope && r !in marks && r in before
  }

  lemma CutCleanIff(s: State, p: Problem, marks: set<Ref>, before: iset<Ref>)
    requires LeastClosed(p, marks) && p.objects == s.objects && p.scope <= s.objects.Keys
    ensures CutClean(p, before) <==> LeftClean(s, Left(p, marks, DeadIn(p, marks, before)), DeadIn(p, marks, before))
  {
    hide LeastClosed, Dead;
    forall r ensures Dead(p, r) <==> r in p.scope - marks {
      DeadIffWhite(p, marks, r);
    }
  }

  ghost function MajorBefore(stop: Stop): iset<Ref> { iset r: Ref | VisitedBefore(stop, r) }

  /** A major sweep that stopped at this address. */
  ghost predicate MajorStopped(s: State, s': State, marks: set<Ref>, owners: seq<Ref>, stop: Stop) {
    var p := MajorProblem(s);
    && LeastClosed(p, marks) && OwnerWorklist(p, marks, owners)
    && s'.objects == Without(AfterWeakPhases(p, marks), DeadIn(p, marks, MajorBefore(stop)))
    && s'.spans == (map id | id in s.spans && (id <= stop.span || LiveIn(marks, id) != {}) :: s.spans[id])
    && s'.remembered == s.remembered && s'.young == s.young && s'.roots == s.roots
    && s'.pending == s.pending + OwnerRecords(p.scope - marks, s.objects, owners)
  }

  lemma MajorStoppedPartly(s: State, s': State, marks: set<Ref>, owners: seq<Ref>, stop: Stop)
    requires MajorStopped(s, s', marks, owners, stop)
    ensures MajorPartly(s, s', marks, owners, DeadIn(MajorProblem(s), marks, MajorBefore(stop)))
  {
    hide LeastClosed, OwnerWorklist, OwnerRecords;
    AfterWeakPhasesShrinks(MajorProblem(s), marks);
    forall r | r in s'.objects && r.span in s.spans ensures r.span in s'.spans {
      if r in marks {
        assert r in LiveIn(marks, r.span);
      }
    }
  }

  /** Exactly when a major sweep that stops there leaves a dangling reference. */
  lemma MajorStopIff(s: State, s': State, marks: set<Ref>, owners: seq<Ref>, stop: Stop)
    requires Valid(s) && MajorStopped(s, s', marks, owners, stop)
    ensures NoDangling(s') <==> CutClean(MajorProblem(s), MajorBefore(stop))
  {
    hide Valid, NoDangling, LeastClosed, OwnerWorklist, OwnerRecords, AfterWeakPhases, CutClean, LeftClean, MajorBefore;
    var p := MajorProblem(s);
    MajorStoppedPartly(s, s', marks, owners, stop);
    DanglingIff(s, s', marks, owners, DeadIn(p, marks, MajorBefore(stop)));
    CutCleanIff(s, p, marks, MajorBefore(stop));
  }

  /** A minor sweep has finished the spans before `index` of the Young chain and come to `offset` in that one. */
  datatype YoungStop = YoungStop(index: nat, offset: nat)

  predicate VisitedOnChain(chain: seq<nat>, stop: YoungStop, r: Ref) {
    exists i :: 0 <= i < |chain| && chain[i] == r.span && (i < stop.index || (i == stop.index && r.offset < stop.offset))
  }

  ghost function MinorBefore(chain: seq<nat>, stop: YoungStop): iset<Ref> { iset r: Ref | VisitedOnChain(chain, stop, r) }

  ghost predicate MinorStopped(s: State, s': State, marks: set<Ref>, owners: seq<Ref>, stop: YoungStop) {
    && stop.index <= |s.young|
    && MinorPartly(s, s', marks, owners, s.young[..stop.index], DeadIn(MinorProblem(s), marks, MinorBefore(s.young, stop)))
  }

  /** Exactly when a minor sweep that stops there leaves a dangling reference. */
  lemma MinorStopIff(s: State, s': State, marks: set<Ref>, owners: seq<Ref>, stop: YoungStop)
    requires Valid(s) && MinorStopped(s, s', marks, owners, stop)
    ensures NoDangling(s') <==> CutClean(MinorProblem(s), MinorBefore(s.young, stop))
  {
    hide Valid, NoDangling, LeastClosed, CutClean, LeftClean, MinorBefore, MinorPartly;
    var p := MinorProblem(s);
    MinorDanglingIff(s, s', marks, owners, s.young[..stop.index], DeadIn(p, marks, MinorBefore(s.young, stop)));
    MinorPartlyMarks(s, s', marks, owners, s.young[..stop.index], DeadIn(p, marks, MinorBefore(s.young, stop)));
    CutCleanIff(s, p, marks, MinorBefore(s.young, stop));
  }

  lemma MinorPartlyMarks(s: State, s': State, marks: set<Ref>, owners: seq<Ref>, done: seq<nat>, dropped: set<Ref>)
    requires MinorPartly(s, s', marks, owners, done, dropped)
    ensures LeastClosed(MinorProblem(s), marks)
  {
  }

  // ----- Every place a sweep can stop at -----

  /** The release of a span with dead objects only is refused, or the drop of a dead object, or no span has
      been visited yet. */
  ghost predicate RefusedAt(s: State, stop: Stop) {
    || ReleaseRefusedAt(s, stop)
    || Dead(MajorProblem(s), Ref(stop.span, stop.offset))
    || (forall r | r in s.objects :: !VisitedBefore(stop, r))
  }

  ghost predicate ReleaseRefusedAt(s: State, stop: Stop) { stop.offset == 0 && Emptied(s, MajorProblem(s), stop.span) }

  ghost predicate Emptied(s: State, p: Problem, id: nat) {
    id in s.spans && forall r | r in s.objects && r.span == id :: Dead(p, r)
  }

  /** No dead object names a dead one that a major sweep visits earlier. */
  ghost predicate NamesNoneBefore(s: State) {
    forall r, i, q |
      r in s.objects && Dead(MajorProblem(s), r) && 0 <= i < |s.objects[r]| && q in Refs(s.objects[r][i]) && Dead(MajorProblem(s), q) ::
        !VisitedBefore(Stop(r.span, r.offset), q)
  }

  /** No dead object names a dead one across the start of a span that the sweep empties. */
  ghost predicate NamesNoneAcross(s: State) {
    forall r, i, q, id: nat |
      r in s.objects && Dead(MajorProblem(s), r) && 0 <= i < |s.objects[r]| && q in Refs(s.objects[r][i]) && Dead(MajorProblem(s), q)
      && Emptied(s, MajorProblem(s), id) :: !(r.span <= id < q.span)
  }

  /** No failing major sweep leaves a dangling reference exactly when no dead object names an earlier dead one. */
  lemma NeverDanglesIff(s: State)
    requires Valid(s)
    ensures (forall s', marks, owners, stop | RefusedAt(s, stop) && MajorStopped(s, s', marks, owners, stop) :: NoDangling(s'))
      <==> NamesNoneBefore(s)
  {
    hide Valid, NoDangling, MajorStopped, Dead, Emptied;
    var p := MajorProblem(s);
    if NamesNoneBefore(s) {
      forall s', marks, owners, stop | RefusedAt(s, stop) && MajorStopped(s, s', marks, owners, stop) ensures NoDangling(s') {
        MajorStopIff(s, s', marks, owners, stop);
      }
    } else {
      var r, i, q :| r in s.objects && Dead(p, r) && 0 <= i < |s.objects[r]| && q in Refs(s.objects[r][i]) && Dead(p, q)
        && VisitedBefore(Stop(r.span, r.offset), q);
      var stop := Stop(r.span, r.offset);
      assert Ref(stop.span, stop.offset) == r && r !in MajorBefore(stop) && q in MajorBefore(stop);
      var s', marks, owners := StoppedState(s, stop);
      MajorStopIff(s, s', marks, owners, stop);
    }
  }

  /** The same for sweeps that fail because a span cannot be released. */
  lemma ReleasesNeverDangleIff(s: State)
    requires Valid(s)
    ensures (forall s', marks, owners, stop | ReleaseRefusedAt(s, stop) && MajorStopped(s, s', marks, owners, stop) :: NoDangling(s'))
      <==> NamesNoneAcross(s)
  {
    hide Valid, NoDangling, MajorStopped, Dead, Emptied;
    var p := MajorProblem(s);
    if NamesNoneAcross(s) {
      forall s', marks, owners, stop | ReleaseRefusedAt(s, stop) && MajorStopped(s, s', marks, owners, stop)
        ensures NoDangling(s')
      {
        MajorStopIff(s, s', marks, owners, stop);
      }
    } else {
      var r, i, q, id: nat :| r in s.objects && Dead(p, r) && 0 <= i < |s.objects[r]| && q in Refs(s.objects[r][i]) && Dead(p, q)
        && Emptied(s, p, id) && r.span <= id < q.span;
      var stop := Stop(id, 0);
      assert r !in MajorBefore(stop) && q in MajorBefore(stop);
      var s', marks, owners := StoppedState(s, stop);
      MajorStopIff(s, s', marks, owners, stop);
    }
  }

  lemma Enumerate<T>(all: set<T>) returns (s: seq<T>)
    ensures NoDuplicates(s) && forall x :: x in s <==> x in all
  {
    s := [];
    if all != {} {
      var x :| x in all;
      var rest := Enumerate(all - {x});
      s := rest + [x];
    }
  }

  lemma WorklistExists(p: Problem) returns (marks: set<Ref>, owners: seq<Ref>)
    ensures LeastClosed(p, marks) && OwnerWorklist(p, marks, owners) && forall x | x in owners :: x in p.objects
  {
    hide LeastClosed, IsWeakOwner;
    LeastClosedExists(p);
    marks :| LeastClosed(p, marks);
    owners := Enumerate(set r | r in p.objects && (r in marks || r in p.sources) && IsWeakOwner(p.objects[r]));
  }

  lemma StoppedState(s: State, stop: Stop) returns (s': State, marks: set<Ref>, owners: seq<Ref>)
    ensures MajorStopped(s, s', marks, owners, stop)
  {
    hide LeastClosed;
    var p := MajorProblem(s);
    marks, owners := WorklistExists(p);
    s' := s.(
      objects := Without(AfterWeakPhases(p, marks), DeadIn(p, marks, MajorBefore(stop))),
      spans := (map id | id in s.spans && (id <= stop.span || LiveIn(marks, id) != {}) :: s.spans[id]),
      pending := s.pending + OwnerRecords(p.scope - marks, s.objects, owners));
  }

  // ----- The same for the Young chain -----

  ghost predicate MinorRefusedAt(s: State, stop: YoungStop) {
    && stop.index < |s.young| && IsYoungSpan(s.spans, s.young[stop.index])
    && ((stop.offset == 0 && Emptied(s, MinorProblem(s), s.young[stop.index]))
        || Dead(MinorProblem(s), Ref(s.young[stop.index], stop.offset)))
  }

  /** No dead Young object names a dead one that a minor sweep visits earlier. */
  ghost predicate YoungNamesNoneBefore(s: State) {
    forall r, i, q, k |
      r in s.objects && Dead(MinorProblem(s), r) && 0 <= i < |s.objects[r]| && q in Refs(s.objects[r][i]) && Dead(MinorProblem(s), q)
      && 0 <= k < |s.young| && s.young[k] == r.span :: !VisitedOnChain(s.young, YoungStop(k, r.offset), q)
  }

  lemma MinorNeverDanglesIff(s: State)
    requires Valid(s)
    ensures (forall s', marks, owners, stop | MinorRefusedAt(s, stop) && MinorStopped(s, s', marks, owners, stop) :: NoDangling(s'))
      <==> YoungNamesNoneBefore(s)
  {
    hide NoDangling, BarrierContract, AllInert, MinorStopped, Forced, Emptied, Seeds;
    var p := MinorProblem(s);
    if YoungNamesNoneBefore(s) {
      forall s', marks, owners, stop | MinorRefusedAt(s, stop) && MinorStopped(s, s', marks, owners, stop) ensures NoDangling(s') {
        ChainOrderClean(s, stop);
        MinorStopIff(s, s', marks, owners, stop);
      }
    } else {
      var r, i, q, k :| r in s.objects && Dead(p, r) && 0 <= i < |s.objects[r]| && q in Refs(s.objects[r][i]) && Dead(p, q)
        && 0 <= k < |s.young| && s.young[k] == r.span && VisitedOnChain(s.young, YoungStop(k, r.offset), q);
      var stop := YoungStop(k, r.offset);
      assert Ref(s.young[k], stop.offset) == r && r !in MinorBefore(s.young, stop) && q in MinorBefore(s.young, stop);
      var s', marks, owners := MinorStoppedState(s, stop);
      MinorStopIff(s, s', marks, owners, stop);
    }
  }

  /** What no dead object names before itself, it does not name before any stop it has yet to reach. */
  lemma ChainOrderClean(s: State, stop: YoungStop)
    requires ChainsSound(s) && YoungNamesNoneBefore(s)
    ensures CutClean(MinorProblem(s), MinorBefore(s.young, stop))
  {
    hide Forced, Seeds, DirtySources;
    var p, before := MinorProblem(s), MinorBefore(s.young, stop);
    forall r, i, q | r in p.objects && Dead(p, r) && 0 <= i < |p.objects[r]| && q in Refs(p.objects[r][i]) && Dead(p, q) && q in before
      ensures r in before
    {
      var k :| 0 <= k < |s.young| && s.young[k] == r.span;
      assert !VisitedOnChain(s.young, YoungStop(k, r.offset), q);
    }
  }

  lemma MinorStoppedState(s: State, stop: YoungStop) returns (s': State, marks: set<Ref>, owners: seq<Ref>)
    requires ChainsSound(s) && stop.index <= |s.young|
    ensures MinorStopped(s, s', marks, owners, stop)
  {
    hide LeastClosed, OwnerWorklist, PreparedSpans, RebuiltSpans, PromotionDue, OwnerRecords, Seeds, DirtySources;
    var p := MinorProblem(s);
    marks, owners := WorklistExists(p);
    var objects := AfterWeakPhases(p, marks);
    var prepared := PreparedSpans(objects, RebuiltSpans(objects, s.spans, s.remembered), s.young, marks);
    var done := s.young[..stop.index];
    var spans := SomeSwept(prepared, done, marks);
    var remembered := Enumerate(set id | id in spans && IsDirty(spans[id]));
    var dropped := DeadIn(p, marks, MinorBefore(s.young, stop));
    FinishedDropped(s, p, marks, stop);
    s' := State(Without(objects, dropped), spans, remembered, s.young, s.roots,
      s.pending + OwnerRecords(p.scope - marks, s.objects, owners));
    assert MinorPartly(s, s', marks, owners, done, dropped);
  }

  lemma FinishedDropped(s: State, p: Problem, marks: set<Ref>, stop: YoungStop)
    requires stop.index <= |s.young|
    ensures forall r | r in p.scope - marks && r.span in s.young[..stop.index] :: r in DeadIn(p, marks, MinorBefore(s.young, stop))
  {
    forall r | r in p.scope - marks && r.span in s.young[..stop.index] ensures VisitedOnChain(s.young, stop, r) {
      var i :| 0 <= i < stop.index && s.young[..stop.index][i] == r.span;
      assert s.young[i] == r.span;
    }
  }

  ghost function SomeSwept(prepared: map<nat, Span>, done: seq<nat>, marks: set<Ref>): (spans: map<nat, Span>)
    ensures SweptSpans(prepared, spans, done, marks)
  {
    hide PromotionDue, LiveIn;
    map id | id in prepared && !(id in done && IsYoungSpan(prepared, id) && LiveIn(marks, id) == {}) ::
      if id in done && IsYoungSpan(prepared, id) then AdvancedSpan(prepared[id], |LiveIn(marks, id)|) else prepared[id]
  }

  // ----- What a failed sweep can leave -----

  const HOLDER := Ref(0, 16)
  const HELD := Ref(1, 16)
  const TWO_DEAD := State(
    map[HOLDER := [Strong(Some(HELD))], HELD := []],
    map[0 := Small(Old, 15, {}), 1 := Small(Old, 15, {})], [], [], [], [])
  const HELD_SWEPT := State(map[HOLDER := [Strong(Some(HELD))]], map[0 := Small(Old, 15, {})], [], [], [], [])

  lemma TwoDeadValid()
    ensures Valid(TWO_DEAD)
  {
    assert !YoungRef(TWO_DEAD.objects, TWO_DEAD.spans, HELD);
    assert RecordRefs([]) == {};
  }

  lemma NothingMarked()
    ensures LeastClosed(MajorProblem(TWO_DEAD), {}) && OwnerWorklist(MajorProblem(TWO_DEAD), {}, [])
    ensures AfterWeakPhases(MajorProblem(TWO_DEAD), {}) == TWO_DEAD.objects
  {
    assert MajorProblem(TWO_DEAD).seeds == {};
  }

  /** The sweep releases the higher span and is refused the one that holds a reference into it. */
  lemma FailedSweepDangles()
    ensures Valid(TWO_DEAD) && RefusedAt(TWO_DEAD, Stop(0, 0))
    ensures MajorStopped(TWO_DEAD, HELD_SWEPT, {}, [], Stop(0, 0)) && !NoDangling(HELD_SWEPT)
  {
    hide Valid, LeastClosed, OwnerWorklist, AfterWeakPhases, Dead;
    TwoDeadValid();
    NothingMarked();
    DeadIffWhite(MajorProblem(TWO_DEAD), {}, HOLDER);
    assert Emptied(TWO_DEAD, MajorProblem(TWO_DEAD), 0);
    assert DeadIn(MajorProblem(TWO_DEAD), {}, MajorBefore(Stop(0, 0))) == {HELD};
    assert forall id :: LiveIn({}, id) == {};
    assert HELD in Refs(HELD_SWEPT.objects[HOLDER][0]) && HELD !in HELD_SWEPT.objects;
    assert !PayloadAllocated(HELD_SWEPT.objects, HELD_SWEPT.objects[HOLDER]);
  }
}
