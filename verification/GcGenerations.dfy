/**
 * The generational heap as a state: its invariant (no dangling reference, the Old-to-Young contract)
 * and the exact effect of every mutator and collector step on it.
 */
module GcGenerations {
  import opened GcObjects
  import opened GcLiveness
  import opened GcWeakPhases
  import opened GcTricolor

  const YOUNG_PROMOTION_AGE: nat := 2
  const EARLY_PROMOTION_OCCUPANCY_PERCENT: nat := 80

  /** `remembered` and `young` are the intrusive span chains; `roots` gathers every exact root provider. */
  datatype State = State(
    objects: map<Ref, Object>, spans: map<nat, Span>,
    remembered: seq<nat>, young: seq<nat>,
    roots: seq<Ref>, pending: seq<Record>)

  /** A span whose sources a minor collection must scan. */
  predicate IsDirty(span: Span) {
    match span
    case Small(space, _, cards) => space == Old && cards != {}
    case Large(remembered) => remembered
  }

  ghost predicate PayloadAllocated(objects: map<Ref, Object>, o: Object) {
    forall i | 0 <= i < |o| :: Refs(o[i]) <= objects.Keys
  }

  /** An edge of any strength to a Young object, or to nothing at all. */
  predicate YoungRef(objects: map<Ref, Object>, spans: map<nat, Span>, r: Ref) {
    r !in objects || IsYoung(spans, r)
  }

  predicate HasYoungEdge(objects: map<Ref, Object>, spans: map<nat, Span>, o: Object) {
    exists i :: 0 <= i < |o| && exists r :: r in Refs(o[i]) && YoungRef(objects, spans, r)
  }

  ghost predicate NoDangling(s: State) {
    && (forall r | r in s.objects :: PayloadAllocated(s.objects, s.objects[r]))
    && (forall r | r in s.roots :: r in s.objects)
    && RecordRefs(s.pending) <= s.objects.Keys
  }

  /** Every Old object with a Young edge sits on a dirty card or remembered owner of a chained span. */
  ghost predicate BarrierContract(s: State) {
    forall r | r in s.objects && !IsYoung(s.spans, r) && HasYoungEdge(s.objects, s.spans, s.objects[r]) ::
      OnDirtyCard(s.spans, r) && r.span in s.remembered
  }

  ghost predicate ChainsSound(s: State) {
    && NoDuplicates(s.remembered) && NoDuplicates(s.young)
    && (forall id | id in s.spans && IsDirty(s.spans[id]) :: id in s.remembered)
    && (forall r | r in s.objects :: r.span in s.spans)
    && (forall r | r in s.objects && IsYoung(s.spans, r) :: r.span in s.young)
  }

  /** No ephemeron is without key but with a heap value: constructors and clearing keep it so. */
  ghost predicate AllInert(objects: map<Ref, Object>) {
    forall r | r in objects :: Inert(objects[r])
  }

  ghost predicate Valid(s: State) {
    NoDangling(s) && BarrierContract(s) && ChainsSound(s) && AllInert(s.objects)
  }

  function Link(chain: seq<nat>, id: nat): seq<nat> { if id in chain then chain else [id] + chain }

  // ----- Tuning -----

  predicate ShouldPromoteEarly(live: nat, total: nat) {
    live != 0 && live * 100 >= total * EARLY_PROMOTION_OCCUPANCY_PERCENT
  }

  /** Ages are bytes; the successor saturates. */
  function NextAge(age: nat): nat { if age >= 255 then 255 else age + 1 }

  predicate PromotionDueToAge(space: Space, promotionAge: nat) {
    match space
    case Eden => promotionAge <= 1
    case Survivor(age) => NextAge(age) >= promotionAge
    case Old => false
  }

  predicate PromotionDue(space: Space, live: nat, total: nat) {
    PromotionDueToAge(space, YOUNG_PROMOTION_AGE) || ShouldPromoteEarly(live, total)
  }

  // ----- Marking problems -----

  ghost function Seeds(s: State): set<Ref> { Elements(s.roots) + RecordRefs(s.pending) }

  ghost function YoungObjects(s: State): set<Ref> { set r | r in s.objects && IsYoung(s.spans, r) }

  ghost function OldObjects(s: State): set<Ref> { set r | r in s.objects && !IsYoung(s.spans, r) }

  /** What the young marker solves: only dirty sources are scanned. */
  ghost function MinorProblem(s: State): Problem {
    Problem(s.objects, YoungObjects(s), Seeds(s), DirtySources(s.objects, s.spans, s.remembered))
  }

  /** The reference problem: every Old object is a source. */
  ghost function WholeOldProblem(s: State): Problem {
    Problem(s.objects, YoungObjects(s), Seeds(s), OldObjects(s))
  }

  ghost function MajorProblem(s: State): Problem {
    Problem(s.objects, s.objects.Keys, Seeds(s), {})
  }

  lemma DirtySourcesAreOld(s: State)
    ensures DirtySources(s.objects, s.spans, s.remembered) <= OldObjects(s)
  {
  }

  /** An Old object that the minor collection does not scan constrains no set of Young objects. */
  lemma CleanSourceClosed(s: State, t: set<Ref>, r: Ref)
    requires BarrierContract(s) && r in OldObjects(s) && r !in MinorProblem(s).sources
    ensures StrongClosed(WholeOldProblem(s), t, s.objects[r]) && EphemeronClosed(WholeOldProblem(s), t, s.objects[r])
  {
    var o := s.objects[r];
    assert !HasYoungEdge(s.objects, s.spans, o);
    forall i, q | 0 <= i < |o| && q in Refs(o[i]) ensures q !in YoungObjects(s) {
      assert !YoungRef(s.objects, s.spans, q);
    }
  }

  /** Scanning only dirty cards loses nothing: both problems have the same closed sets. */
  lemma DirtyCardsSuffice(s: State, t: set<Ref>)
    requires BarrierContract(s)
    ensures Closed(MinorProblem(s), t) <==> Closed(WholeOldProblem(s), t)
  {
    var p, q := MinorProblem(s), WholeOldProblem(s);
    DirtySourcesAreOld(s);
    if Closed(p, t) {
      forall r | r in q.objects && (r in t || r in q.sources)
        ensures StrongClosed(q, t, q.objects[r]) && EphemeronClosed(q, t, q.objects[r])
      {
        if r !in t && r !in p.sources {
          CleanSourceClosed(s, t, r);
        } else {
          SameClosure(p, q, t, q.objects[r]);
        }
      }
    }
    if Closed(q, t) {
      forall r | r in p.objects && (r in t || r in p.sources)
        ensures StrongClosed(p, t, p.objects[r]) && EphemeronClosed(p, t, p.objects[r])
      {
        SameClosure(p, q, t, p.objects[r]);
      }
    }
  }

  lemma SameClosure(p: Problem, q: Problem, t: set<Ref>, o: Object)
    requires p.scope == q.scope
    ensures StrongClosed(p, t, o) <==> StrongClosed(q, t, o)
    ensures EphemeronClosed(p, t, o) <==> EphemeronClosed(q, t, o)
  {
    forall i | 0 <= i < |o|
      ensures Included(p, t, StrongTarget(o[i])) <==> Included(q, t, StrongTarget(o[i]))
      ensures EphemeronSlotClosed(p, t, o[i]) <==> EphemeronSlotClosed(q, t, o[i])
    {
    }
  }

  /** So a minor mark computes exactly the Young objects reachable from the whole Old heap. */
  lemma MinorMarksExactly(s: State, marks: set<Ref>)
    requires BarrierContract(s) && LeastClosed(MinorProblem(s), marks)
    ensures LeastClosed(WholeOldProblem(s), marks)
  {
    DirtyCardsSuffice(s, marks);
    forall t: set<Ref> | Closed(WholeOldProblem(s), t) ensures marks <= t {
      DirtyCardsSuffice(s, t);
    }
  }
}
