/** What marking must compute: the least set closed under strong edges and the ephemeron rule. */
module GcLiveness {
  import opened Options
  import opened GcObjects

  /**
   * One marking problem. `scope` is the set of collectable objects (all of them for a major
   * collection, the Young ones for a minor), `seeds` are the root and pending-record references and
   * `sources` are objects outside the scope whose edges count as live.
   */
  datatype Problem = Problem(
    objects: map<Ref, Object>, scope: set<Ref>, seeds: set<Ref>, sources: set<Ref>)

  ghost predicate WellPosed(p: Problem) {
    p.scope <= p.objects.Keys && p.sources <= p.objects.Keys && p.scope !! p.sources
  }

  /** Every reference met while marking names an allocated object. */
  ghost predicate NoDanglingReference(p: Problem) {
    && p.seeds <= p.objects.Keys
    && forall r, i | r in p.objects && 0 <= i < |p.objects[r]| :: Refs(p.objects[r][i]) <= p.objects.Keys
  }

  /** Objects outside the scope are live by definition. */
  ghost predicate Live(p: Problem, s: set<Ref>, r: Ref) { r in s || r !in p.scope }

  ghost predicate Included(p: Problem, s: set<Ref>, t: Option<Ref>) {
    t.Some? && t.value in p.scope ==> t.value in s
  }

  /** The strong part of a slot: a plain edge, or the held value of a registration. */
  function StrongTarget(slot: Slot): Option<Ref> {
    match slot
    case Strong(t) => t
    case Weak(_) => None
    case Ephemeron(_, _) => None
    case Finalization(_, h) => h
  }

  ghost predicate EphemeronSlotClosed(p: Problem, s: set<Ref>, slot: Slot) {
    slot.Ephemeron? && slot.key.Some? && Live(p, s, slot.key.value) ==> Included(p, s, slot.value)
  }

  ghost predicate StrongClosed(p: Problem, s: set<Ref>, o: Object) {
    forall i | 0 <= i < |o| :: Included(p, s, StrongTarget(o[i]))
  }

  ghost predicate EphemeronClosed(p: Problem, s: set<Ref>, o: Object) {
    forall i | 0 <= i < |o| :: EphemeronSlotClosed(p, s, o[i])
  }

  ghost predicate Closed(p: Problem, s: set<Ref>) {
    && s <= p.scope
    && p.seeds * p.scope <= s
    && forall r | r in p.objects && (r in s || r in p.sources) ::
         StrongClosed(p, s, p.objects[r]) && EphemeronClosed(p, s, p.objects[r])
  }

  /** `s` lies inside every closed set. */
  ghost predicate Below(p: Problem, s: set<Ref>) {
    forall t: set<Ref> | Closed(p, t) :: s <= t
  }

  ghost predicate LeastClosed(p: Problem, s: set<Ref>) { Closed(p, s) && Below(p, s) }

  /** What every closed set contains is itself closed, so a least closed set exists. */
  lemma LeastClosedExists(p: Problem)
    ensures exists s :: LeastClosed(p, s)
  {
    var s := set r | r in p.scope && Forced(p, r);
    forall r, i | r in p.objects && (r in s || r in p.sources) && 0 <= i < |p.objects[r]|
      ensures Included(p, s, StrongTarget(p.objects[r][i])) && EphemeronSlotClosed(p, s, p.objects[r][i])
    {
      ForcedSlotClosed(p, s, r, i);
    }
    assert Closed(p, s);
    assert LeastClosed(p, s);
  }

  lemma ForcedSlotClosed(p: Problem, s: set<Ref>, r: Ref, i: nat)
    requires Below(p, s) && forall q | q in p.scope && Forced(p, q) :: q in s
    requires r in p.objects && (r in s || r in p.sources) && i < |p.objects[r]|
    ensures Included(p, s, StrongTarget(p.objects[r][i])) && EphemeronSlotClosed(p, s, p.objects[r][i])
  {
    var slot := p.objects[r][i];
    if StrongTarget(slot).Some? {
      StrongEdgeForced(p, s, r, i, StrongTarget(slot).value);
    }
    if slot.Ephemeron? && slot.value.Some? && slot.key.Some? && Live(p, s, slot.key.value) {
      EphemeronValueForced(p, s, r, i, slot.value.value);
    }
  }

  lemma LeastClosedUnique(p: Problem, s: set<Ref>, t: set<Ref>)
    requires LeastClosed(p, s) && LeastClosed(p, t)
    ensures s == t
  {
  }

  /** Every closed set must contain `r`. */
  ghost predicate Forced(p: Problem, r: Ref) {
    r in p.scope ==> forall t: set<Ref> | Closed(p, t) :: r in t
  }

  lemma ForcedBelow(p: Problem, s: set<Ref>, r: Ref)
    requires Below(p, s) && Forced(p, r) && r in p.scope
    ensures Below(p, s + {r})
  {
  }

  lemma StrongEdgeForced(p: Problem, s: set<Ref>, x: Ref, i: nat, t: Ref)
    requires Below(p, s) && x in p.objects && (x in s || x in p.sources)
    requires i < |p.objects[x]|
    requires StrongTarget(p.objects[x][i]) == Some(t)
    ensures Forced(p, t)
  {
    forall c: set<Ref> | Closed(p, c) && t in p.scope ensures t in c {
      assert StrongClosed(p, c, p.objects[x]);
      assert Included(p, c, StrongTarget(p.objects[x][i]));
    }
  }

  lemma EphemeronValueForced(p: Problem, s: set<Ref>, x: Ref, i: nat, t: Ref)
    requires Below(p, s) && x in p.objects && (x in s || x in p.sources)
    requires i < |p.objects[x]|
    requires var slot := p.objects[x][i];
      slot.Ephemeron? && slot.value == Some(t) && slot.key.Some? && Live(p, s, slot.key.value)
    ensures Forced(p, t)
  {
    forall c: set<Ref> | Closed(p, c) && t in p.scope ensures t in c {
      assert EphemeronClosed(p, c, p.objects[x]);
      assert EphemeronSlotClosed(p, c, p.objects[x][i]);
    }
  }

  /** Objects whose slots every complete mark visits. */
  ghost predicate Traced(p: Problem, x: Ref) {
    x in p.objects && (x in p.sources || (x in p.scope && Forced(p, x)))
  }

  /** References every complete mark meets, in slots of whatever strength. */
  ghost predicate Met(p: Problem, r: Ref) {
    r in p.seeds || exists x, i :: Traced(p, x) && 0 <= i < |p.objects[x]| && r in Refs(p.objects[x][i])
  }

  lemma MarkedTraced(p: Problem, s: set<Ref>, x: Ref)
    requires Below(p, s) && s <= p.scope && x in p.objects && (x in s || x in p.sources)
    ensures Traced(p, x)
  {
  }

  lemma LeastBelow(p: Problem, s: set<Ref>)
    requires LeastClosed(p, s)
    ensures Below(p, s) && s <= p.scope
  {
  }

  lemma LeastTraced(p: Problem, s: set<Ref>, x: Ref)
    requires LeastClosed(p, s) && s <= p.scope && x in p.objects && (x in s || x in p.sources)
    ensures Traced(p, x)
  {
    MarkedTraced(p, s, x);
  }

  lemma SlotMet(p: Problem, x: Ref, i: nat)
    requires Traced(p, x) && i < |p.objects[x]|
    ensures forall r | r in Refs(p.objects[x][i]) :: Met(p, r)
  {
  }

  lemma StrongClosedMonotone(p: Problem, s: set<Ref>, t: set<Ref>, o: Object)
    requires s <= t && StrongClosed(p, s, o)
    ensures StrongClosed(p, t, o)
  {
    forall i | 0 <= i < |o| ensures Included(p, t, StrongTarget(o[i])) {
      assert Included(p, s, StrongTarget(o[i]));
    }
  }
}
