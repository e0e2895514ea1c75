/**
 * Restoring environment depths: a completion is delivered only where the depth it restores is not
 * above the current one. Validation does not compare the two, so a throw, or a jump replayed by a
 * finalizer, may end in an engine error.
 */
module BytecodeRestores {
  import opened Options
  import opened BytecodeEncoding
  import opened BytecodeVerifier
  import opened BytecodeHandlers
  import opened BytecodeEnvironments
  import opened BytecodeRuns
  import opened BytecodeParking

  /** The depth that routing a completion from `origin` restores, if anything takes it. */
  function RestoredDepth(p: Program, c: Completion, origin: nat): Option<nat> {
    match FindHandler(p.handlers, |p.handlers|, origin, c)
    case Some(e) => Some(p.handlers[e].environmentDepth)
    case None => if c.Jump? then Some(c.depth) else None
  }

  /** The completion has somewhere to go. */
  ghost predicate IsDelivered(p: Program, m: Machine, c: Completion, origin: nat) {
    exists m' :: Dispatches(p, m, c, origin, m')
  }

  ghost predicate CanDeliver(p: Program, m: Machine, c: Completion, origin: nat) {
    exists m' :: Delivers(p, m, c, origin, m')
  }

  predicate RestoresBelow(p: Program, c: Completion, origin: nat, depth: nat) {
    RestoredDepth(p, c, origin).Some? && RestoredDepth(p, c, origin).value <= depth
  }

  lemma DeliversIff(p: Program, m: Machine, c: Completion, origin: nat)
    ensures CanDeliver(p, m, c, origin) <==> RestoresBelow(p, c, origin, m.depth)
  {
    hide FindHandler;
    match FindHandler(p.handlers, |p.handlers|, origin, c)
    case Some(e) =>
      var h := p.handlers[e];
      if h.environmentDepth <= m.depth {
        var m' := Machine(h.handler, h.environmentDepth, if IsFinalizer(h) then m.saved + [Saved(e, c)] else m.saved);
        assert Delivers(p, m, c, origin, m');
      }
    case None =>
      if c.Jump? && c.depth <= m.depth {
        assert Delivers(p, m, c, origin, Machine(c.target, c.depth, m.saved));
      }
  }

  /** Exactly when a completion goes anywhere; a restore to a higher depth is an engine error. */
  lemma {:induction false} DeliveredIff(p: Program, m: Machine, c: Completion, origin: nat)
    ensures IsDelivered(p, m, c, origin) <==> RestoresBelow(p, c, SurfacesAt(p, m, c, origin), m.depth)
    decreases |m.saved|
  {
    hide RestoresBelow, Dispatches, CanDeliver, IsDelivered, Kept;
    if Suppressed(p, m, c, origin) {
      var top, rest := m.saved[|m.saved| - 1], m.saved[..|m.saved| - 1];
      DeliveredIff(p, m.(saved := rest), Throw, p.handlers[top.entry].handler);
      SuppressedDispatch(p, m, c, origin);
    } else {
      DirectDispatch(p, m, c, origin);
      DeliversIff(p, m.(saved := Kept(p.handlers, m.saved, c, origin, Candidate(p, c, origin))), c, origin);
    }
  }

  lemma SuppressedDispatch(p: Program, m: Machine, c: Completion, origin: nat)
    requires Suppressed(p, m, c, origin)
    ensures var top, rest := m.saved[|m.saved| - 1], m.saved[..|m.saved| - 1];
      IsDelivered(p, m, c, origin) <==> IsDelivered(p, m.(saved := rest), Throw, p.handlers[top.entry].handler)
  {
    hide Delivers, Kept;
    var top, rest := m.saved[|m.saved| - 1], m.saved[..|m.saved| - 1];
    var inner, from := m.(saved := rest), p.handlers[top.entry].handler;
    forall m' ensures Dispatches(p, m, c, origin, m') <==> Dispatches(p, inner, Throw, from, m') {
    }
  }

  lemma DirectDispatch(p: Program, m: Machine, c: Completion, origin: nat)
    requires !Suppressed(p, m, c, origin)
    ensures var kept := m.(saved := Kept(p.handlers, m.saved, c, origin, Candidate(p, c, origin)));
      IsDelivered(p, m, c, origin) <==> CanDeliver(p, kept, c, origin)
  {
    hide Delivers, Kept;
    var kept := m.(saved := Kept(p.handlers, m.saved, c, origin, Candidate(p, c, origin)));
    forall m' ensures Dispatches(p, m, c, origin, m') <==> Delivers(p, kept, c, origin, m') {
    }
  }

  /** Where nothing that is routed is delivered, no routing step is possible. */
  lemma UndeliveredStuck(p: Program, m: Machine, k: nat)
    requires Listing(p.words, p.starts) && k < |p.starts|
    requires forall c, saved | Routes(p, m, k, c, saved) :: !IsDelivered(p, m.(saved := saved), c, m.pc)
    ensures forall m' :: !RoutesTo(p, m, k, m')
  {
    hide Listing, Routes, Dispatches;
  }

  // ----- A condition on the code -----

  /** Nothing that may be routed at instruction `k` restores a depth above the one there. */
  ghost predicate RestoresDown(p: Program, k: nat)
    requires Listing(p.words, p.starts) && k < |p.starts|
  {
    forall c, x | Arrives(p, Parked(p), k, c, x) && RestoredDepth(p, c, x).Some? ::
      RestoredDepth(p, c, x).value <= |Stack(p.words, p.starts, k)|
  }

  /** The check validation leaves out: the depth each completion restores against every instruction that
      may raise or replay it. */
  ghost predicate Unobstructed(p: Program)
    requires Listing(p.words, p.starts)
  {
    forall k | 0 <= k < |p.starts| :: RestoresDown(p, k)
  }

  /** A machine at instruction `k` with the static depth and completions from the code, routing a
      completion that something takes in the end. */
  ghost predicate RoutesTaken(p: Program, m: Machine, k: nat, c: Completion, saved: seq<Saved>)
    requires Listing(p.words, p.starts)
  {
    && Agrees(p, m) && Sourced(p, m.saved) && k < |p.starts| && p.starts[k] == m.pc && Routes(p, m, k, c, saved)
    && RestoredDepth(p, c, SurfacesAt(p, m.(saved := saved), c, m.pc)).Some?
  }

  /** Every completion that something takes, raised or replayed, is delivered from every such state,
      exactly in unobstructed functions. */
  lemma DeliveredIffUnobstructed(p: Program)
    requires Accepted(p)
    ensures Listing(p.words, p.starts)
    ensures Unobstructed(p) <==>
      forall m, k, c, saved | RoutesTaken(p, m, k, c, saved) :: IsDelivered(p, m.(saved := saved), c, m.pc)
  {
    hide Decode, Prefix, Accepted, IsDelivered, RestoresDown, Agrees, Sourced, Routes, RestoredDepth;
    AcceptedListing(p);
    if Unobstructed(p) {
      forall m, k, c, saved | RoutesTaken(p, m, k, c, saved) ensures IsDelivered(p, m.(saved := saved), c, m.pc) {
        TakenDelivered(p, m, k, c, saved);
      }
    } else {
      var k :| 0 <= k < |p.starts| && !RestoresDown(p, k);
      var m, c, saved := ObstructedState(p, k);
    }
  }

  lemma TakenDelivered(p: Program, m: Machine, k: nat, c: Completion, saved: seq<Saved>)
    requires Accepted(p) && Listing(p.words, p.starts) && RoutesTaken(p, m, k, c, saved) && RestoresDown(p, k)
    ensures IsDelivered(p, m.(saved := saved), c, m.pc)
  {
    hide Decode, Prefix, Accepted, Dispatches, SavedAgree, Routes, Arrives, RestoredDepth, Sourced;
    AcceptedStructured(p);
    IndexUnique(p.words, p.starts, k);
    SurfacedArrives(p, m, k, c, saved);
    DeliveredIff(p, m.(saved := saved), c, m.pc);
  }

  /** What can be parked agrees with the static depths. */
  lemma ParkedAgrees(p: Program)
    requires Accepted(p) && Listing(p.words, p.starts)
    ensures forall s | s in Parked(p) :: s.entry < |p.handlers| && CompletionAgrees(p, s.completion)
  {
    hide Decode, Prefix, Accepted, FindHandler, CompletionAgrees;
    var agreeing := iset s: Saved | s.entry < |p.handlers| && CompletionAgrees(p, s.completion);
    forall s | Parks(p, agreeing, s) ensures s in agreeing {
      var k: nat, x: nat :| k < |p.starts| && Arrives(p, agreeing, k, s.completion, x)
        && FindHandler(p.handlers, |p.handlers|, x, s.completion) == Some(s.entry);
      ArrivalAgrees(p, agreeing, k, s.completion, x);
    }
    assert ParkingClosed(p, agreeing);
    ParkedLeast(p);
  }

  lemma ArrivalAgrees(p: Program, parked: iset<Saved>, k: nat, c: Completion, x: nat)
    requires Accepted(p) && Listing(p.words, p.starts) && k < |p.starts| && Arrives(p, parked, k, c, x)
    requires forall s | s in parked :: CompletionAgrees(p, s.completion)
    ensures CompletionAgrees(p, c)
  {
    hide Decode, Prefix, Accepted, FindHandler, DepthAt;
    if c.Jump? && Raises(p, k, c) {
      JumpDepth(p, k);
    }
  }

  /** A completion that restores upward has a state in which it is routed and goes nowhere. */
  lemma ObstructedState(p: Program, k: nat) returns (m: Machine, c: Completion, saved: seq<Saved>)
    requires Accepted(p) && Listing(p.words, p.starts) && k < |p.starts| && !RestoresDown(p, k)
    ensures RoutesTaken(p, m, k, c, saved) && !IsDelivered(p, m.(saved := saved), c, m.pc)
  {
    hide Decode, Prefix, Accepted, Dispatches, Arrives, RestoredDepth, Routes, Sourced, SavedAgree;
    var x;
    c, x :| Arrives(p, Parked(p), k, c, x) && RestoredDepth(p, c, x).Some?
      && RestoredDepth(p, c, x).value > |Stack(p.words, p.starts, k)|;
    m, saved := ArrivalState(p, k, c, x);
    IndexUnique(p.words, p.starts, k);
    DeliveredIff(p, m.(saved := saved), c, m.pc);
  }

  /** Whatever may be routed at an instruction is routed there by some agreeing state. */
  lemma ArrivalState(p: Program, k: nat, c: Completion, x: nat) returns (m: Machine, saved: seq<Saved>)
    requires Accepted(p) && Listing(p.words, p.starts) && k < |p.starts| && Arrives(p, Parked(p), k, c, x)
    ensures m.pc == p.starts[k] && m.depth == |Stack(p.words, p.starts, k)| && SavedAgree(p, m.saved) && Sourced(p, m.saved)
    ensures Routes(p, m, k, c, saved) && SurfacesAt(p, m.(saved := saved), c, m.pc) == x
  {
    hide Decode, Prefix, Accepted, Raises, CompletionAgrees, FindHandler, Parked, Stack;
    ParkedAgrees(p);
    var o, depth := p.starts[k], |Stack(p.words, p.starts, k)|;
    saved := [];
    if Carries(p, Parked(p), k, c, x) {
      if x != o {
        var e: nat :| Saved(e, Throw) in Parked(p) && e < |p.handlers| && p.handlers[e].kind == IteratorClose
          && BodyCovers(p.handlers[e], o) && x == p.handlers[e].handler;
        saved := [Saved(e, Throw)];
        assert saved[..0] == [];
        Unsuppressed(p, Machine(o, depth, []), x);
      }
      if Raises(p, k, c) {
        m := Machine(o, depth, saved);
      } else {
        var e: nat :| Saved(e, c) in Parked(p) && e < |p.handlers| && BodyCovers(p.handlers[e], o);
        m := Machine(o, depth, saved + [Saved(e, c)]);
      }
    } else if IsReturn(At(p.words, p.starts, k).opcode) {
      m := Machine(o, depth, []);
    } else {
      var e: nat :| Saved(e, Return) in Parked(p) && e < |p.handlers| && BodyCovers(p.handlers[e], o);
      m := Machine(o, depth, [Saved(e, Return)]);
    }
  }

  lemma Unsuppressed(p: Program, m: Machine, x: nat)
    requires m.saved == []
    ensures SurfacesAt(p, m, Throw, x) == x
  {
  }

  /** In every run of an accepted, aligned and unobstructed function each completion that something takes,
      whether raised, replayed or left by suppressed errors, is delivered. */
  lemma RunsDeliver(p: Program, run: seq<Machine>, n: nat, k: nat, c: Completion, saved: seq<Saved>)
    requires Accepted(p) && Listing(p.words, p.starts) && Aligned(p) && Unobstructed(p) && IsRun(p, run) && n < |run|
    requires k < |p.starts| && p.starts[k] == run[n].pc && Routes(p, run[n], k, c, saved)
    requires RestoredDepth(p, c, SurfacesAt(p, run[n].(saved := saved), c, run[n].pc)).Some?
    ensures IsDelivered(p, run[n].(saved := saved), c, run[n].pc)
  {
    hide Decode, Prefix, Accepted, Dispatches, RestoresDown, Routes, RestoredDepth, Aligned, IsRun, Agrees, Sourced;
    AcceptedStructured(p);
    RunsAgree(p, run, n);
    RunsSourced(p, run, n);
    TakenDelivered(p, run[n], k, c, saved);
  }
}
