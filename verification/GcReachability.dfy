/** What a mark contains, told by example: every marked object ends a finite chain of reasons. */
module GcReachability {
  import opened Options
  import opened GcObjects
  import opened GcLiveness

  /** The objects whose slots keep others alive once the objects in `chain` are known to be live. */
  ghost predicate Holds(p: Problem, chain: seq<Ref>, x: Ref) { x in p.objects && (x in chain || x in p.sources) }

  /**
   * Why `r` is live given the objects in `chain`: a root names it, or a live object holds it through a
   * plain edge, as the held value of a registration, or as the value of an ephemeron whose key is live.
   */
  ghost predicate Reason(p: Problem, chain: seq<Ref>, r: Ref) {
    || r in p.seeds
    || (exists x, i :: Holds(p, chain, x) && 0 <= i < |p.objects[x]| && KeptBy(p, chain, p.objects[x][i], r))
  }

  ghost predicate KeptBy(p: Problem, chain: seq<Ref>, slot: Slot, r: Ref) {
    || slot == Strong(Some(r))
    || (slot.Finalization? && slot.held == Some(r))
    || (slot.Ephemeron? && slot.value == Some(r) && slot.key.Some? && (slot.key.value in chain || slot.key.value !in p.scope))
  }

  /** Each object of the chain is collectable and live because of earlier ones alone. */
  ghost predicate Derivation(p: Problem, chain: seq<Ref>) {
    forall n {:trigger chain[n]} | 0 <= n < |chain| :: chain[n] in p.scope && Reason(p, chain[..n], chain[n])
  }

  ghost predicate Derived(p: Problem, r: Ref) {
    exists chain :: Derivation(p, chain) && r in chain
  }

  lemma ReasonGrows(p: Problem, a: seq<Ref>, b: seq<Ref>, r: Ref)
    requires Reason(p, a, r) && forall x | x in a :: x in b
    ensures Reason(p, b, r)
  {
    if r !in p.seeds {
      var x, i :| Holds(p, a, x) && 0 <= i < |p.objects[x]| && KeptBy(p, a, p.objects[x][i], r);
      assert Holds(p, b, x) && KeptBy(p, b, p.objects[x][i], r);
    }
  }

  lemma DerivationsJoin(p: Problem, a: seq<Ref>, b: seq<Ref>)
    requires Derivation(p, a) && Derivation(p, b)
    ensures Derivation(p, a + b)
  {
    hide Reason;
    var c := a + b;
    forall n | 0 <= n < |c| ensures c[n] in p.scope && Reason(p, c[..n], c[n]) {
      if n < |a| {
        assert c[..n] == a[..n];
        assert a[n] in p.scope;
      } else {
        assert b[n - |a|] in p.scope;
        assert c[..n] == a + b[..n - |a|];
        ReasonGrows(p, b[..n - |a|], c[..n], c[n]);
      }
    }
  }

  lemma DerivationExtends(p: Problem, chain: seq<Ref>, r: Ref)
    requires Derivation(p, chain) && r in p.scope && Reason(p, chain, r)
    ensures Derived(p, r)
  {
    hide Reason;
    var longer := chain + [r];
    forall n | 0 <= n < |longer| ensures longer[n] in p.scope && Reason(p, longer[..n], longer[n]) {
      if n < |chain| {
        assert longer[..n] == chain[..n] && chain[n] in p.scope;
      } else {
        assert longer[..n] == chain;
      }
    }
    assert Derivation(p, longer) && r in longer;
  }

  /** Closed sets contain every object with a reason among live ones. */
  lemma ReasonClosed(p: Problem, s: set<Ref>, chain: seq<Ref>, r: Ref)
    requires Closed(p, s) && r in p.scope && Reason(p, chain, r) && forall x | x in chain :: x in s
    ensures r in s
  {
    if r !in p.seeds {
      var x, i :| Holds(p, chain, x) && 0 <= i < |p.objects[x]| && KeptBy(p, chain, p.objects[x][i], r);
      assert StrongClosed(p, s, p.objects[x]) && EphemeronClosed(p, s, p.objects[x]);
      assert Included(p, s, StrongTarget(p.objects[x][i])) && EphemeronSlotClosed(p, s, p.objects[x][i]);
    }
  }

  lemma {:induction false} DerivationInside(p: Problem, s: set<Ref>, chain: seq<Ref>)
    requires Closed(p, s) && Derivation(p, chain)
    ensures forall r | r in chain :: r in s
  {
    hide Closed, Reason;
    if chain != [] {
      var init, last := chain[..|chain| - 1], chain[|chain| - 1];
      forall n | 0 <= n < |init| ensures init[n] in p.scope && Reason(p, init[..n], init[n]) {
        assert init[..n] == chain[..n] && chain[n] == init[n];
      }
      DerivationInside(p, s, init);
      ReasonClosed(p, s, init, last);
    }
  }

  ghost function DerivedSet(p: Problem): set<Ref> { set r | r in p.scope && Derived(p, r) }

  lemma DerivedTarget(p: Problem, x: Ref, i: nat, r: Ref)
    requires x in p.objects && i < |p.objects[x]| && (x in DerivedSet(p) || x in p.sources) && r in p.scope
    requires var slot := p.objects[x][i];
      StrongTarget(slot) == Some(r)
      || (slot.Ephemeron? && slot.value == Some(r) && slot.key.Some? && Live(p, DerivedSet(p), slot.key.value))
    ensures r in DerivedSet(p)
  {
    hide Derivation;
    var slot := p.objects[x][i];
    var owner: seq<Ref> := [];
    EmptyDerivation(p);
    if x !in p.sources {
      owner :| Derivation(p, owner) && x in owner;
    }
    var key: seq<Ref> := [];
    if slot.Ephemeron? && slot.key.value in DerivedSet(p) {
      key :| Derivation(p, key) && slot.key.value in key;
    }
    DerivationsJoin(p, owner, key);
    var both := owner + key;
    assert Holds(p, both, x) && KeptBy(p, both, slot, r);
    DerivationExtends(p, both, r);
  }

  lemma EmptyDerivation(p: Problem)
    ensures Derivation(p, [])
  {
  }

  lemma DerivedClosed(p: Problem)
    ensures Closed(p, DerivedSet(p))
  {
    hide Derived;
    var s := DerivedSet(p);
    forall r | r in p.seeds * p.scope ensures r in s {
      EmptyDerivation(p);
      DerivationExtends(p, [], r);
    }
    forall r, i | r in p.objects && (r in s || r in p.sources) && 0 <= i < |p.objects[r]|
      ensures Included(p, s, StrongTarget(p.objects[r][i])) && EphemeronSlotClosed(p, s, p.objects[r][i])
    {
      var slot := p.objects[r][i];
      if StrongTarget(slot).Some? && StrongTarget(slot).value in p.scope {
        DerivedTarget(p, r, i, StrongTarget(slot).value);
      }
      if slot.Ephemeron? && slot.value.Some? && slot.value.value in p.scope && slot.key.Some? && Live(p, s, slot.key.value) {
        DerivedTarget(p, r, i, slot.value.value);
      }
    }
  }

  /** A mark is complete and exact precisely when it holds the objects that some chain of reasons reaches. */
  lemma LeastIffDerived(p: Problem, s: set<Ref>)
    ensures LeastClosed(p, s) <==> s <= p.scope && forall r | r in p.scope :: r in s <==> Derived(p, r)
  {
    hide Closed, Derived;
    DerivedClosed(p);
    forall t: set<Ref> | Closed(p, t) ensures DerivedSet(p) <= t {
      forall r | r in DerivedSet(p) ensures r in t {
        DerivedInside(p, t, r);
      }
    }
    assert LeastClosed(p, DerivedSet(p));
    if LeastClosed(p, s) {
      LeastClosedUnique(p, s, DerivedSet(p));
    }
    if s <= p.scope && forall r | r in p.scope :: r in s <==> Derived(p, r) {
      assert s == DerivedSet(p);
    }
  }

  lemma DerivedInside(p: Problem, s: set<Ref>, r: Ref)
    requires Closed(p, s) && Derived(p, r)
    ensures r in s
  {
    hide Closed, Derivation;
    var chain :| Derivation(p, chain) && r in chain;
    DerivationInside(p, s, chain);
  }
}
