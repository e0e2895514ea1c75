/**
 * How many completions a run has saved. The layout reserves room for the finalizer bodies that cover
 * an offset; validation does not make sure that saved completions belong to those.
 */
module BytecodeCompletions {
  import opened Options
  import opened BytecodeEncoding
  import opened BytecodeVerifier
  import opened BytecodeHandlers
  import opened BytecodeEnvironments
  import opened BytecodeRuns
  import opened BytecodeParking

  /** Entry `j` lands inside the body of finalizer `i`, with its own whole body if it has one. */
  predicate Encloses(handlers: seq<Handler>, i: nat, j: nat) {
    && i < |handlers| && j < |handlers| && i != j && IsFinalizer(handlers[i])
    && if IsFinalizer(handlers[j]) then FinalizerContains(handlers[i], handlers[j])
       else BodyCovers(handlers[i], handlers[j].handler)
  }

  /** The saved completions belong to different finalizers around `offset`, the later inside the earlier. */
  ghost predicate StackedAt(handlers: seq<Handler>, saved: seq<Saved>, offset: nat) {
    && (forall a | 0 <= a < |saved| :: saved[a].entry < |handlers| && BodyCovers(handlers[saved[a].entry], offset))
    && (forall a, b | 0 <= a < b < |saved| :: Encloses(handlers, saved[a].entry, saved[b].entry))
  }

  ghost predicate Stacked(p: Program, m: Machine) { StackedAt(p.handlers, m.saved, m.pc) }

  /** Then there are no more of them than bodies around the offset. */
  lemma StackedWithinBodies(handlers: seq<Handler>, saved: seq<Saved>, offset: nat)
    requires StackedAt(handlers, saved, offset)
    ensures |saved| <= |CoveringBodies(handlers, offset)|
  {
    EntriesCounted(handlers, saved, offset);
    SubsetCount(Entries(saved), CoveringBodies(handlers, offset));
  }

  ghost function Entries(saved: seq<Saved>): set<nat> { set a | 0 <= a < |saved| :: saved[a].entry }

  lemma {:induction false} EntriesCounted(handlers: seq<Handler>, saved: seq<Saved>, offset: nat)
    requires StackedAt(handlers, saved, offset)
    ensures |Entries(saved)| == |saved| && Entries(saved) <= CoveringBodies(handlers, offset)
  {
    if saved != [] {
      var init, last := saved[..|saved| - 1], saved[|saved| - 1];
      EntriesCounted(handlers, init, offset);
      assert Entries(saved) == Entries(init) + {last.entry};
      forall a | 0 <= a < |init| ensures init[a].entry != last.entry {
        assert Encloses(handlers, saved[a].entry, saved[|saved| - 1].entry);
      }
    }
  }

  // ----- Where control may go without leaving a running finalizer unawares -----

  /** If a completion from `origin` keeps finalizer `i` running, that encloses the handler it selects. */
  predicate StaysInside(p: Program, c: Completion, origin: nat, i: nat)
    requires i < |p.handlers|
  {
    var e := FindHandler(p.handlers, |p.handlers|, origin, c);
    e.Some? && Preserves(p.handlers[i], c, origin, Some(p.handlers[e.value])) ==> Encloses(p.handlers, i, e.value)
  }

  ghost predicate RoutesInside(p: Program, c: Completion, origin: nat) {
    forall i | 0 <= i < |p.handlers| && IsFinalizer(p.handlers[i]) :: StaysInside(p, c, origin, i)
  }

  ghost predicate JumpStays(p: Program, k: nat)
    requires Listing(p.words, p.starts) && k < |p.starts|
  {
    var i := At(p.words, p.starts, k);
    i.opcode == JUMP || IsConditional(i.opcode) ==>
      forall j | 0 <= j < |p.handlers| && BodyCovers(p.handlers[j], p.starts[k]) :: BodyCovers(p.handlers[j], TargetOf(i))
  }

  ghost predicate RaiseStays(p: Program, k: nat)
    requires Listing(p.words, p.starts) && k < |p.starts|
  {
    forall c | Raises(p, k, c) :: RoutesInside(p, c, p.starts[k])
  }

  ghost predicate EnterStays(p: Program, k: nat)
    requires Listing(p.words, p.starts) && k < |p.starts|
  {
    var e := FindFinally(p.handlers, |p.handlers|, p.starts[k]);
    At(p.words, p.starts, k).opcode == ENTER_FINALLY && e.Some? ==>
      forall i | 0 <= i < |p.handlers| && BodyCovers(p.handlers[i], p.starts[k]) :: Encloses(p.handlers, i, e.value)
  }

  predicate RunTogether(p: Program, offset: nat, i: nat, t: nat) {
    && i < |p.handlers| && t < |p.handlers| && Encloses(p.handlers, i, t)
    && BodyCovers(p.handlers[i], offset) && BodyCovers(p.handlers[t], offset)
  }

  /** Two finalizers running at a resume: the outer one continues after it, and keeps enclosing what a
      replayed completion selects. */
  ghost predicate ResumeStays(p: Program, k: nat)
    requires Listing(p.words, p.starts) && k < |p.starts|
  {
    At(p.words, p.starts, k).opcode == RESUME_COMPLETION ==>
      forall i: nat, t: nat | RunTogether(p, p.starts[k], i, t) ::
        && BodyCovers(p.handlers[i], Following(p.starts, |p.words|, k))
        && forall c | c != Ordinary && Saved(t, c) in Parked(p) :: StaysInside(p, c, p.starts[k], i)
  }

  /** A throw reaches instruction `k` while `e` runs inside `i`: raised there, or replayed by a third finalizer. */
  ghost predicate ThrowReaches(p: Program, k: nat, i: nat, e: nat)
    requires Listing(p.words, p.starts) && k < |p.starts|
  {
    || Raises(p, k, Throw)
    || (At(p.words, p.starts, k).opcode == RESUME_COMPLETION
        && exists t: nat ::
             Saved(t, Throw) in Parked(p) && RunTogether(p, p.starts[k], i, t) && RunTogether(p, p.starts[k], e, t))
  }

  /** When an iterator close gives way to the older error, that stays inside the finalizers around the close. */
  ghost predicate CloseStays(p: Program, k: nat)
    requires Listing(p.words, p.starts) && k < |p.starts|
  {
    forall i: nat, e: nat |
      RunTogether(p, p.starts[k], i, e) && p.handlers[e].kind == IteratorClose && Saved(e, Throw) in Parked(p)
      && ThrowReaches(p, k, i, e) ::
        StaysInside(p, Throw, p.handlers[e].handler, i)
  }

  ghost predicate ConfinedAt(p: Program, k: nat)
    requires Listing(p.words, p.starts) && k < |p.starts|
  {
    JumpStays(p, k) && RaiseStays(p, k) && EnterStays(p, k) && ResumeStays(p, k) && CloseStays(p, k)
  }

  /** The checks validation leaves out. */
  ghost predicate Confined(p: Program)
    requires Listing(p.words, p.starts)
  {
    forall k | 0 <= k < |p.starts| :: ConfinedAt(p, k)
  }

  // ----- Confined functions keep their completions stacked -----

  /** A finalizer around a preserved one is preserved too. */
  lemma OuterPreserved(handlers: seq<Handler>, i: nat, j: nat, c: Completion, origin: nat, candidate: Option<Handler>)
    requires Encloses(handlers, i, j) && IsFinalizer(handlers[j]) && Preserves(handlers[j], c, origin, candidate)
    ensures Preserves(handlers[i], c, origin, candidate)
  {
  }

  lemma KeptPreserved(handlers: seq<Handler>, saved: seq<Saved>, c: Completion, origin: nat, candidate: Option<Handler>)
    requires StackedAt(handlers, saved, origin)
    ensures var kept := Kept(handlers, saved, c, origin, candidate);
      && StackedAt(handlers, kept, origin)
      && forall a | 0 <= a < |kept| :: Preserves(handlers[kept[a].entry], c, origin, candidate)
  {
    hide Encloses, Preserves;
    var kept := Kept(handlers, saved, c, origin, candidate);
    forall a | 0 <= a < |kept| ensures Preserves(handlers[kept[a].entry], c, origin, candidate) {
      assert kept[a] == saved[a] && kept[|kept| - 1] == saved[|kept| - 1];
      if a < |kept| - 1 {
        OuterPreserved(handlers, kept[a].entry, kept[|kept| - 1].entry, c, origin, candidate);
      }
    }
  }

  /** The chosen handler's own body starts where it does. */
  lemma LandingCovered(p: Program, i: nat, j: nat)
    requires Structured(p) && j < |p.handlers|
    ensures IsFinalizer(p.handlers[j]) ==> BodyCovers(p.handlers[j], p.handlers[j].handler)
    ensures Encloses(p.handlers, i, j) ==> BodyCovers(p.handlers[i], p.handlers[j].handler)
    ensures p.handlers[j].handler in p.starts
  {
    hide Prefix, Decode, EndsWithResume, Nested, InstructionVerified;
    assert EntryValid(p.words, p.starts, p.handlers[j]);
  }

  ghost predicate SavedInside(p: Program, saved: seq<Saved>, c: Completion, origin: nat) {
    forall a | 0 <= a < |saved| :: saved[a].entry < |p.handlers| && StaysInside(p, c, origin, saved[a].entry)
  }

  lemma DeliveryStacks(p: Program, m: Machine, c: Completion, origin: nat, m': Machine)
    requires Structured(p) && StackedAt(p.handlers, m.saved, origin) && SavedInside(p, m.saved, c, origin)
    requires var kept := Kept(p.handlers, m.saved, c, origin, Candidate(p, c, origin));
      Delivers(p, m.(saved := kept), c, origin, m')
    ensures Stacked(p, m')
  {
    hide Verified, HandlersAccepted, Encloses, Kept, FindHandler;
    var kept := Kept(p.handlers, m.saved, c, origin, Candidate(p, c, origin));
    KeptPreserved(p.handlers, m.saved, c, origin, Candidate(p, c, origin));
    var e := FindHandler(p.handlers, |p.handlers|, origin, c);
    if e.Some? {
      forall a | 0 <= a < |kept|
        ensures Encloses(p.handlers, kept[a].entry, e.value)
        ensures BodyCovers(p.handlers[kept[a].entry], p.handlers[e.value].handler)
      {
        LandingCovered(p, kept[a].entry, e.value);
      }
      LandingCovered(p, e.value, e.value);
    }
  }

  /** Wherever two of the saved completions belong to, a throw may reach. */
  ghost predicate ThrowReachesAll(p: Program, k: nat, saved: seq<Saved>)
    requires Listing(p.words, p.starts) && k < |p.starts|
  {
    forall a, b | 0 <= a < b < |saved| :: ThrowReaches(p, k, saved[a].entry, saved[b].entry)
  }

  /** Routing a confined completion keeps the completions stacked. */
  lemma {:induction false} DispatchStacks(p: Program, m: Machine, k: nat, c: Completion, origin: nat, m': Machine)
    requires Structured(p) && Listing(p.words, p.starts) && k < |p.starts| && CloseStays(p, k) && Sourced(p, m.saved)
    requires StackedAt(p.handlers, m.saved, p.starts[k]) && StackedAt(p.handlers, m.saved, origin)
    requires SavedInside(p, m.saved, c, origin) && (c == Throw ==> ThrowReachesAll(p, k, m.saved))
    requires Dispatches(p, m, c, origin, m')
    ensures Stacked(p, m')
    decreases |m.saved|
  {
    hide Structured, Listing, StaysInside, Encloses, Delivers, Kept, ThrowReaches, Parked;
    if Suppressed(p, m, c, origin) {
      var top, rest := m.saved[|m.saved| - 1], m.saved[..|m.saved| - 1];
      forall a | 0 <= a < |rest|
        ensures BodyCovers(p.handlers[rest[a].entry], p.handlers[top.entry].handler)
        ensures StaysInside(p, Throw, p.handlers[top.entry].handler, rest[a].entry)
      {
        assert Encloses(p.handlers, m.saved[a].entry, m.saved[|m.saved| - 1].entry);
        assert ThrowReaches(p, k, m.saved[a].entry, m.saved[|m.saved| - 1].entry);
        LandingCovered(p, rest[a].entry, top.entry);
      }
      DispatchStacks(p, m.(saved := rest), k, Throw, p.handlers[top.entry].handler, m');
    } else {
      DeliveryStacks(p, m, c, origin, m');
    }
  }

  /** Falling through never leaves a finalizer body: its last instruction resumes. */
  lemma FallThroughStays(p: Program, k: nat, j: nat)
    requires Structured(p) && k < |p.starts| && At(p.words, p.starts, k).opcode != RESUME_COMPLETION
    requires j < |p.handlers| && BodyCovers(p.handlers[j], p.starts[k])
    ensures BodyCovers(p.handlers[j], Following(p.starts, |p.words|, k))
  {
    hide Decode, Prefix, Nested, InstructionVerified;
    var h := p.handlers[j];
    assert EntryValid(p.words, p.starts, h);
    var r :| 0 <= r < |p.starts| && Following(p.starts, |p.words|, r) == h.handlerEnd
      && At(p.words, p.starts, r).opcode == RESUME_COMPLETION;
    ListingStep(p.words, p.starts, k);
    BoundaryBetween(p, k, r);
    AfterStart(p, k);
  }

  lemma AfterStart(p: Program, k: nat)
    requires Listing(p.words, p.starts) && k < |p.starts|
    ensures p.starts[k] < Following(p.starts, |p.words|, k)
  {
    hide Adjacent;
    AdjacentAhead(p.words, p.starts[k], Following(p.starts, |p.words|, k));
  }

  /** An end of an instruction after the start of another is not before that one's end. */
  lemma BoundaryBetween(p: Program, k: nat, r: nat)
    requires Listing(p.words, p.starts) && k < |p.starts| && r < |p.starts|
    requires p.starts[k] < Following(p.starts, |p.words|, r)
    ensures Following(p.starts, |p.words|, k) <= Following(p.starts, |p.words|, r)
    ensures k != r ==> Following(p.starts, |p.words|, k) < Following(p.starts, |p.words|, r)
  {
    hide Adjacent;
    if k < r {
      EndAfterStart(p.words, p.starts, k + 1, r);
    } else if r < k {
      if r + 1 < k {
        StartsIncrease(p.words, p.starts, |p.words|, r + 1, k);
      }
    }
  }

  lemma SameSaved(p: Program, saved: seq<Saved>, o: nat, o': nat)
    requires StackedAt(p.handlers, saved, o)
    requires forall j | 0 <= j < |p.handlers| && BodyCovers(p.handlers[j], o) :: BodyCovers(p.handlers[j], o')
    ensures StackedAt(p.handlers, saved, o')
  {
    hide Encloses;
  }

  lemma EnterStacks(p: Program, m: Machine, k: nat, m': Machine)
    requires Structured(p) && Stacked(p, m) && k < |p.starts| && p.starts[k] == m.pc && EnterStays(p, k)
    requires At(p.words, p.starts, k).opcode == ENTER_FINALLY && EntersFinally(p, m, m')
    ensures Stacked(p, m')
  {
    hide Structured, Listing, Encloses, FindFinally, At;
    var e := FindFinally(p.handlers, |p.handlers|, m.pc);
    forall a | 0 <= a < |m.saved|
      ensures Encloses(p.handlers, m.saved[a].entry, e.value)
      ensures BodyCovers(p.handlers[m.saved[a].entry], p.handlers[e.value].handler)
    {
      LandingCovered(p, m.saved[a].entry, e.value);
    }
    LandingCovered(p, e.value, e.value);
  }

  lemma ResumeStacks(p: Program, m: Machine, k: nat, m': Machine)
    requires Listing(p.words, p.starts) && Stacked(p, m) && k < |p.starts| && p.starts[k] == m.pc && ResumeStays(p, k)
    requires Resumes(p, m, k, m')
    ensures Stacked(p, m')
  {
    hide Listing, Encloses, At, StaysInside;
    var top, rest := m.saved[|m.saved| - 1], m.saved[..|m.saved| - 1];
    forall a | 0 <= a < |rest| ensures RunTogether(p, m.pc, rest[a].entry, top.entry) {
      assert Encloses(p.handlers, m.saved[a].entry, m.saved[|m.saved| - 1].entry);
    }
  }

  lemma RoutedStacks(p: Program, m: Machine, k: nat, c: Completion, saved: seq<Saved>)
    requires Listing(p.words, p.starts) && Stacked(p, m) && Sourced(p, m.saved)
    requires k < |p.starts| && p.starts[k] == m.pc && ConfinedAt(p, k) && Routes(p, m, k, c, saved)
    ensures Sourced(p, saved)
    ensures StackedAt(p.handlers, saved, m.pc) && SavedInside(p, saved, c, m.pc)
    ensures c == Throw ==> ThrowReachesAll(p, k, saved)
  {
    hide Listing, Encloses, At, StaysInside, JumpStays, EnterStays, CloseStays, Raises, Ends, Parked;
    RoutedPrefix(p, m, k, c, saved);
    if saved == m.saved && Raises(p, k, c) {
      assert RoutesInside(p, c, m.pc);
    } else if saved != [] {
      var t := m.saved[|m.saved| - 1].entry;
      forall a | 0 <= a < |saved| ensures RunTogether(p, m.pc, saved[a].entry, t) {
        assert Encloses(p.handlers, m.saved[a].entry, m.saved[|m.saved| - 1].entry);
      }
    }
  }

  lemma StepStacks(p: Program, m: Machine, m': Machine)
    requires Structured(p) && Listing(p.words, p.starts) && Confined(p) && Stacked(p, m) && Sourced(p, m.saved) && Step(p, m, m')
    ensures Stacked(p, m')
  {
    hide Decode, Listing, Structured, StackedAt, Sourced, Dispatches, Routes, Ends, Resumes, JumpStays, RaiseStays, EnterStays,
      ResumeStays, CloseStays;
    var k := IndexOf(p.words, p.starts, m.pc);
    var i := At(p.words, p.starts, k);
    assert ConfinedAt(p, k);
    if FallsThrough(p, m, i, Following(p.starts, |p.words|, k), m') {
      FallThroughStacks(p, m, k);
    } else if (i.opcode == JUMP || IsConditional(i.opcode)) && m' == m.(pc := TargetOf(i)) {
      JumpStacks(p, m, k);
    } else if i.opcode == ENTER_FINALLY && EntersFinally(p, m, m') {
      EnterStacks(p, m, k, m');
    } else if Resumes(p, m, k, m') {
      ResumeStacks(p, m, k, m');
    } else if RoutesTo(p, m, k, m') {
      var c, saved :| Routes(p, m, k, c, saved) && Dispatches(p, m.(saved := saved), c, m.pc, m');
      RoutedStacks(p, m, k, c, saved);
      DispatchStacks(p, m.(saved := saved), k, c, m.pc, m');
    } else {
      NothingStacked(p.handlers, m.pc);
    }
  }

  lemma NothingStacked(handlers: seq<Handler>, offset: nat)
    ensures StackedAt(handlers, [], offset)
  {
  }

  lemma FallThroughStacks(p: Program, m: Machine, k: nat)
    requires Structured(p) && Listing(p.words, p.starts) && Stacked(p, m) && k < |p.starts| && p.starts[k] == m.pc
    requires At(p.words, p.starts, k).opcode != RESUME_COMPLETION
    ensures StackedAt(p.handlers, m.saved, Following(p.starts, |p.words|, k))
  {
    hide Structured, Listing, StackedAt;
    var next := Following(p.starts, |p.words|, k);
    forall j | 0 <= j < |p.handlers| && BodyCovers(p.handlers[j], m.pc) ensures BodyCovers(p.handlers[j], next) {
      FallThroughStays(p, k, j);
    }
    SameSaved(p, m.saved, m.pc, next);
  }

  lemma JumpStacks(p: Program, m: Machine, k: nat)
    requires Listing(p.words, p.starts) && Stacked(p, m) && k < |p.starts| && p.starts[k] == m.pc && JumpStays(p, k)
    requires var op := At(p.words, p.starts, k).opcode; op == JUMP || IsConditional(op)
    ensures StackedAt(p.handlers, m.saved, TargetOf(At(p.words, p.starts, k)))
  {
    hide Listing, StackedAt;
    SameSaved(p, m.saved, m.pc, TargetOf(At(p.words, p.starts, k)));
  }

  // ----- Every unconfined instruction has a step that breaks the stacking -----

  /** The machine at instruction `k` while finalizer `i` runs for an ordinary completion. */
  ghost function Running(p: Program, k: nat, i: nat, depth: nat): Machine
    requires k < |p.starts|
  {
    Machine(p.starts[k], depth, [Saved(i, Ordinary)])
  }

  lemma JumpEscapes(p: Program, k: nat) returns (m: Machine, m': Machine)
    requires Structured(p) && k < |p.starts| && !JumpStays(p, k)
    ensures Stacked(p, m) && Listing(p.words, p.starts) && Sourced(p, m.saved) && Step(p, m, m') && !Stacked(p, m')
  {
    hide Decode, Prefix, HandlersAccepted, InstructionVerified, Encloses, Dispatches;
    var t := TargetOf(At(p.words, p.starts, k));
    var j :| 0 <= j < |p.handlers| && BodyCovers(p.handlers[j], p.starts[k]) && !BodyCovers(p.handlers[j], t);
    IndexUnique(p.words, p.starts, k);
    m := Running(p, k, j, 0);
    m' := m.(pc := t);
    assert m'.saved[0].entry == j;
  }

  /** A completion that keeps `i` but selects a handler outside it. */
  lemma DeliveryEscapes(p: Program, m: Machine, c: Completion, origin: nat, i: nat) returns (m': Machine)
    requires i < |p.handlers| && BodyCovers(p.handlers[i], origin) && !StaysInside(p, c, origin, i)
    requires m.saved == [Saved(i, Ordinary)] && c != Ordinary
    requires m.depth == p.handlers[FindHandler(p.handlers, |p.handlers|, origin, c).value].environmentDepth
    ensures Dispatches(p, m, c, origin, m') && !Stacked(p, m')
  {
    hide Encloses;
    var e := FindHandler(p.handlers, |p.handlers|, origin, c).value;
    var h := p.handlers[e];
    assert Kept(p.handlers, m.saved, c, origin, Some(h)) == m.saved;
    m' := Machine(h.handler, h.environmentDepth, if IsFinalizer(h) then m.saved + [Saved(e, c)] else m.saved);
    OutsideUnstacked(p, m', i, e, c);
  }

  lemma OutsideUnstacked(p: Program, m': Machine, i: nat, e: nat, c: Completion)
    requires i < |p.handlers| && e < |p.handlers| && IsFinalizer(p.handlers[i]) && !Encloses(p.handlers, i, e)
    requires m'.pc == p.handlers[e].handler
    requires m'.saved == if IsFinalizer(p.handlers[e]) then [Saved(i, Ordinary), Saved(e, c)] else [Saved(i, Ordinary)]
    ensures !Stacked(p, m')
  {
    assert m'.saved[0].entry == i;
    if IsFinalizer(p.handlers[e]) {
      assert m'.saved[1].entry == e;
    }
  }

  lemma RaiseEscapes(p: Program, k: nat) returns (m: Machine, m': Machine)
    requires Structured(p) && Listing(p.words, p.starts) && k < |p.starts| && !RaiseStays(p, k)
    ensures Stacked(p, m) && Sourced(p, m.saved) && Step(p, m, m') && !Stacked(p, m')
  {
    hide Decode, Prefix, Structured, Encloses, Dispatches, StaysInside, Raises, Parked;
    var o := p.starts[k];
    var c :| Raises(p, k, c) && !RoutesInside(p, c, o);
    var j :| 0 <= j < |p.handlers| && IsFinalizer(p.handlers[j]) && !StaysInside(p, c, o, j);
    KeepsRunning(p, c, o, j);
    IndexUnique(p.words, p.starts, k);
    m := Running(p, k, j, SelectedDepth(p, c, o));
    m' := DeliveryEscapes(p, m, c, o, j);
    assert Routes(p, m, k, c, m.saved);
    assert m.(saved := m.saved) == m;
    assert RoutesTo(p, m, k, m');
  }

  function SelectedDepth(p: Program, c: Completion, origin: nat): nat
    requires FindHandler(p.handlers, |p.handlers|, origin, c).Some?
  {
    p.handlers[FindHandler(p.handlers, |p.handlers|, origin, c).value].environmentDepth
  }

  lemma KeepsRunning(p: Program, c: Completion, origin: nat, i: nat)
    requires i < |p.handlers| && IsFinalizer(p.handlers[i]) && !StaysInside(p, c, origin, i)
    ensures BodyCovers(p.handlers[i], origin) && FindHandler(p.handlers, |p.handlers|, origin, c).Some?
  {
    hide Encloses, FindHandler;
  }

  lemma EnterEscapes(p: Program, k: nat) returns (m: Machine, m': Machine)
    requires Structured(p) && k < |p.starts| && !EnterStays(p, k)
    ensures Stacked(p, m) && Listing(p.words, p.starts) && Sourced(p, m.saved) && Step(p, m, m') && !Stacked(p, m')
  {
    hide Decode, Prefix, HandlersAccepted, InstructionVerified, Encloses, Dispatches;
    var e := FindFinally(p.handlers, |p.handlers|, p.starts[k]);
    var i :| 0 <= i < |p.handlers| && BodyCovers(p.handlers[i], p.starts[k]) && !Encloses(p.handlers, i, e.value);
    IndexUnique(p.words, p.starts, k);
    m := Running(p, k, i, 0);
    m' := Machine(p.handlers[e.value].handler, 0, m.saved + [Saved(e.value, Ordinary)]);
    assert EntersFinally(p, m, m');
    OutsideUnstacked(p, m', i, e.value, Ordinary);
  }

  lemma ResumeEscapes(p: Program, k: nat) returns (m: Machine, m': Machine)
    requires Structured(p) && Listing(p.words, p.starts) && k < |p.starts| && !ResumeStays(p, k)
    ensures Stacked(p, m) && Sourced(p, m.saved) && Step(p, m, m') && !Stacked(p, m')
  {
    hide Decode, Prefix, Structured, Encloses, Dispatches, StaysInside, Parked;
    var o, next := p.starts[k], Following(p.starts, |p.words|, k);
    var i: nat, t: nat :| RunTogether(p, o, i, t)
      && !(BodyCovers(p.handlers[i], next) && forall c | c != Ordinary && Saved(t, c) in Parked(p) :: StaysInside(p, c, o, i));
    IndexUnique(p.words, p.starts, k);
    if !BodyCovers(p.handlers[i], next) {
      m := Machine(o, 0, [Saved(i, Ordinary), Saved(t, Ordinary)]);
      PairStacked(p, m, i, t);
      m' := Machine(next, 0, [Saved(i, Ordinary)]);
      assert m.saved[..1] == [Saved(i, Ordinary)] && m'.saved[0].entry == i;
      assert Resumes(p, m, k, m');
    } else {
      var c :| c != Ordinary && Saved(t, c) in Parked(p) && !StaysInside(p, c, o, i);
      KeepsRunning(p, c, o, i);
      m := Machine(o, SelectedDepth(p, c, o), [Saved(i, Ordinary), Saved(t, c)]);
      PairStacked(p, m, i, t);
      var saved := [Saved(i, Ordinary)];
      m' := DeliveryEscapes(p, m.(saved := saved), c, o, i);
      assert Routes(p, m, k, c, saved);
      assert RoutesTo(p, m, k, m');
    }
  }

  lemma CloseEscapes(p: Program, k: nat) returns (m: Machine, m': Machine)
    requires Structured(p) && Listing(p.words, p.starts) && k < |p.starts| && !CloseStays(p, k)
    ensures Stacked(p, m) && Sourced(p, m.saved) && Step(p, m, m') && !Stacked(p, m')
  {
    hide Decode, Prefix, Structured, Encloses, StaysInside, Raises, Dispatches, Parked;
    var o := p.starts[k];
    var i: nat, e: nat :| RunTogether(p, o, i, e) && p.handlers[e].kind == IteratorClose && Saved(e, Throw) in Parked(p)
      && ThrowReaches(p, k, i, e) && !StaysInside(p, Throw, p.handlers[e].handler, i);
    var x := p.handlers[e].handler;
    KeepsRunning(p, Throw, x, i);
    IndexUnique(p.words, p.starts, k);
    var saved := [Saved(i, Ordinary), Saved(e, Throw)];
    var depth := SelectedDepth(p, Throw, x);
    m' := DeliveryEscapes(p, Machine(o, depth, [Saved(i, Ordinary)]), Throw, x, i);
    GivesWay(p, Machine(o, depth, saved), e, m');
    m := ThrowRouted(p, k, i, e, depth);
    assert RoutesTo(p, m, k, m');
  }

  /** A state in which the throw is routed while `e` runs inside `i`. */
  lemma ThrowRouted(p: Program, k: nat, i: nat, e: nat, depth: nat) returns (m: Machine)
    requires Listing(p.words, p.starts) && k < |p.starts| && RunTogether(p, p.starts[k], i, e) && Saved(e, Throw) in Parked(p)
    requires ThrowReaches(p, k, i, e)
    ensures m.pc == p.starts[k] && m.depth == depth && Stacked(p, m) && Sourced(p, m.saved)
    ensures Routes(p, m, k, Throw, [Saved(i, Ordinary), Saved(e, Throw)])
  {
    hide Decode, Prefix, Encloses, Raises, Parked, Ends;
    var saved := [Saved(i, Ordinary), Saved(e, Throw)];
    if Raises(p, k, Throw) {
      m := Machine(p.starts[k], depth, saved);
      PairStacked(p, m, i, e);
    } else {
      var t: nat :| Saved(t, Throw) in Parked(p) && RunTogether(p, p.starts[k], i, t) && RunTogether(p, p.starts[k], e, t);
      m := Machine(p.starts[k], depth, saved + [Saved(t, Throw)]);
      TripleStacked(p, m, i, e, t);
    }
  }

  /** A throw inside a close that runs for a throw is routed like the older one. */
  lemma GivesWay(p: Program, m: Machine, e: nat, m': Machine)
    requires e < |p.handlers| && p.handlers[e].kind == IteratorClose && BodyCovers(p.handlers[e], m.pc)
    requires |m.saved| == 2 && m.saved[1] == Saved(e, Throw)
    requires Dispatches(p, m.(saved := [m.saved[0]]), Throw, p.handlers[e].handler, m')
    ensures Dispatches(p, m, Throw, m.pc, m')
  {
    hide Delivers;
    assert m.saved[..1] == [m.saved[0]];
  }

  lemma TripleStacked(p: Program, m: Machine, i: nat, e: nat, t: nat)
    requires RunTogether(p, m.pc, i, e) && RunTogether(p, m.pc, i, t) && RunTogether(p, m.pc, e, t)
    requires |m.saved| == 3 && m.saved[0].entry == i && m.saved[1].entry == e && m.saved[2].entry == t
    ensures Stacked(p, m)
  {
    hide Encloses;
  }

  lemma PairStacked(p: Program, m: Machine, i: nat, t: nat)
    requires RunTogether(p, m.pc, i, t) && |m.saved| == 2 && m.saved[0].entry == i && m.saved[1].entry == t
    ensures Stacked(p, m)
  {
    hide Encloses;
  }

  /** Steps keep saved completions stacked exactly in confined functions. */
  lemma StackedPreservedIffConfined(p: Program)
    requires Structured(p)
    ensures Listing(p.words, p.starts)
    ensures Confined(p) <==> forall m, m' | Stacked(p, m) && Sourced(p, m.saved) && Step(p, m, m') :: Stacked(p, m')
  {
    hide Structured, Stacked, Sourced, Step, JumpStays, RaiseStays, EnterStays, ResumeStays, CloseStays;
    StructuredListing(p);
    if Confined(p) {
      forall m, m' | Stacked(p, m) && Sourced(p, m.saved) && Step(p, m, m') ensures Stacked(p, m') {
        StepStacks(p, m, m');
      }
    } else {
      var k :| 0 <= k < |p.starts| && !ConfinedAt(p, k);
      var m, m';
      if !JumpStays(p, k) {
        m, m' := JumpEscapes(p, k);
      } else if !RaiseStays(p, k) {
        m, m' := RaiseEscapes(p, k);
      } else if !EnterStays(p, k) {
        m, m' := EnterEscapes(p, k);
      } else if !ResumeStays(p, k) {
        m, m' := ResumeEscapes(p, k);
      } else {
        m, m' := CloseEscapes(p, k);
      }
    }
  }

  lemma StructuredListing(p: Program)
    requires Structured(p)
    ensures Listing(p.words, p.starts)
  {
  }

  /** In every run of a confined function the saved completions fit the window the layout reserves. */
  lemma {:induction false} RunsFitWindow(p: Program, run: seq<Machine>, n: nat, depth: HandlerDepth, layout: Layout)
    requires Structured(p) && Listing(p.words, p.starts) && Confined(p) && IsRun(p, run) && n < |run|
    requires DepthsBounded(p.handlers, depth) && LayoutAccepted(layout, depth)
    ensures Stacked(p, run[n]) && |run[n].saved| <= layout.maxCompletionDepth
  {
    hide Decode, Prefix, Verified, Step, Confined, DepthsBounded, Sourced;
    if n > 0 {
      RunsFitWindow(p, run, n - 1, depth, layout);
      RunsSourced(p, run, n - 1);
      StepStacks(p, run[n - 1], run[n]);
    }
    StackedWithinBodies(p.handlers, run[n].saved, run[n].pc);
    BodiesWithinDepth(p.handlers, depth, run[n].pc);
  }
}
