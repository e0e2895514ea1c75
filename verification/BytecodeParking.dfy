/**
 * Which completions a finalizer can hold while it runs: the least solution of a flow over the
 * instructions. Raised completions are routed to finalizers, whose resumes route them further.
 */
module BytecodeParking {
  import opened Options
  import opened BytecodeEncoding
  import opened BytecodeVerifier
  import opened BytecodeHandlers
  import opened BytecodeEnvironments
  import opened BytecodeRuns

  /** Where a completion is routed from in the end: each suppressed iterator-close error moves it to the
      start of the finalizer that closed the iterator. */
  function SurfacesAt(p: Program, m: Machine, c: Completion, origin: nat): nat
    decreases |m.saved|
  {
    if Suppressed(p, m, c, origin) then
      var top, rest := m.saved[|m.saved| - 1], m.saved[..|m.saved| - 1];
      SurfacesAt(p, m.(saved := rest), Throw, p.handlers[top.entry].handler)
    else origin
  }

  /** A throw parked in an iterator-close finalizer that starts at `x` and runs around instruction `k`. */
  ghost predicate ClosesAt(p: Program, parked: iset<Saved>, k: nat, x: nat)
    requires k < |p.starts|
  {
    exists e: nat :: Saved(e, Throw) in parked && e < |p.handlers| && p.handlers[e].kind == IteratorClose
      && BodyCovers(p.handlers[e], p.starts[k]) && x == p.handlers[e].handler
  }

  ghost predicate Replayed(p: Program, parked: iset<Saved>, k: nat, c: Completion)
    requires Listing(p.words, p.starts) && k < |p.starts|
  {
    && At(p.words, p.starts, k).opcode == RESUME_COMPLETION && c != Ordinary
    && exists e: nat :: Saved(e, c) in parked && e < |p.handlers| && BodyCovers(p.handlers[e], p.starts[k])
  }

  /** With `parked` in its finalizers, instruction `k` may route `c` from `x`: raised or replayed there, then
      possibly moved by suppressed iterator-close errors. */
  ghost predicate Carries(p: Program, parked: iset<Saved>, k: nat, c: Completion, x: nat)
    requires Listing(p.words, p.starts) && k < |p.starts|
  {
    && (Raises(p, k, c) || Replayed(p, parked, k, c))
    && (x == p.starts[k] || (c == Throw && ClosesAt(p, parked, k, x)))
  }

  /** The same, or a throw of the jobs that follow a return nothing takes. */
  ghost predicate Arrives(p: Program, parked: iset<Saved>, k: nat, c: Completion, x: nat)
    requires Listing(p.words, p.starts) && k < |p.starts|
  {
    || Carries(p, parked, k, c, x)
    || (c == Throw && x == p.starts[k] && p.entry && FindHandler(p.handlers, |p.handlers|, x, Return).None?
        && (IsReturn(At(p.words, p.starts, k).opcode) || Replayed(p, parked, k, Return)))
  }

  /** Some instruction routes the completion of `s` to the finalizer of `s`. */
  ghost predicate Parks(p: Program, parked: iset<Saved>, s: Saved)
    requires Listing(p.words, p.starts)
  {
    exists k: nat, x: nat :: k < |p.starts| && Arrives(p, parked, k, s.completion, x)
      && FindHandler(p.handlers, |p.handlers|, x, s.completion) == Some(s.entry) && IsFinalizer(p.handlers[s.entry])
  }

  ghost predicate ParkingClosed(p: Program, parked: iset<Saved>)
    requires Listing(p.words, p.starts)
  {
    forall s | Parks(p, parked, s) :: s in parked
  }

  ghost predicate MayPark(p: Program, s: Saved)
    requires Listing(p.words, p.starts)
  {
    forall parked: iset<Saved> | ParkingClosed(p, parked) :: s in parked
  }

  ghost function Parked(p: Program): iset<Saved>
    requires Listing(p.words, p.starts)
  {
    iset s | MayPark(p, s)
  }

  lemma ParksMonotone(p: Program, a: iset<Saved>, b: iset<Saved>, s: Saved)
    requires Listing(p.words, p.starts) && a <= b && Parks(p, a, s)
    ensures Parks(p, b, s)
  {
    hide Decode, Prefix, FindHandler;
    var k: nat, x: nat :| k < |p.starts| && Arrives(p, a, k, s.completion, x)
      && FindHandler(p.handlers, |p.handlers|, x, s.completion) == Some(s.entry);
    assert Arrives(p, b, k, s.completion, x);
  }

  /** `Parked` is the least set closed under parking. */
  lemma ParkedLeast(p: Program)
    requires Listing(p.words, p.starts)
    ensures ParkingClosed(p, Parked(p))
    ensures forall parked | ParkingClosed(p, parked) :: Parked(p) <= parked
  {
    hide Prefix, Parks;
    forall s | Parks(p, Parked(p), s) ensures s in Parked(p) {
      forall parked | ParkingClosed(p, parked) ensures s in parked {
        ParksMonotone(p, Parked(p), parked, s);
      }
    }
  }

  /** Each saved completion is an ordinary one or one of `parked`. */
  ghost predicate HeldIn(p: Program, parked: iset<Saved>, saved: seq<Saved>) {
    forall i | 0 <= i < |saved| :: saved[i].entry < |p.handlers| && (saved[i].completion != Ordinary ==> saved[i] in parked)
  }

  /** The completions of a machine come from the code. */
  ghost predicate Sourced(p: Program, saved: seq<Saved>)
    requires Listing(p.words, p.starts)
  {
    HeldIn(p, Parked(p), saved)
  }

  /** Suppressing one more error leads from one covering close handler to another. */
  lemma NextClose(p: Program, parked: iset<Saved>, k: nat, x: nat, e: nat)
    requires Structured(p) && k < |p.starts| && e < |p.handlers| && p.handlers[e].kind == IteratorClose
    requires x == p.starts[k] || ClosesAt(p, parked, k, x)
    requires BodyCovers(p.handlers[e], x) && Saved(e, Throw) in parked
    ensures ClosesAt(p, parked, k, p.handlers[e].handler)
  {
    hide Verified, EntryValid, Nested;
    if x != p.starts[k] {
      var d: nat :| Saved(d, Throw) in parked && d < |p.handlers| && p.handlers[d].kind == IteratorClose
        && BodyCovers(p.handlers[d], p.starts[k]) && x == p.handlers[d].handler;
      BodiesLaminar(p.handlers, d, e);
    }
  }

  lemma {:induction false} CarriedOn(p: Program, parked: iset<Saved>, m: Machine, k: nat, c: Completion, x: nat)
    requires Structured(p) && Listing(p.words, p.starts) && HeldIn(p, parked, m.saved) && k < |p.starts|
    requires Carries(p, parked, k, c, x)
    ensures Carries(p, parked, k, c, SurfacesAt(p, m, c, x))
    decreases |m.saved|
  {
    hide Structured, Listing, Raises, Replayed, ClosesAt;
    if Suppressed(p, m, c, x) {
      var top, rest := m.saved[|m.saved| - 1], m.saved[..|m.saved| - 1];
      NextClose(p, parked, k, x, top.entry);
      CarriedOn(p, parked, m.(saved := rest), k, c, p.handlers[top.entry].handler);
    }
  }

  /** What a machine routes, the code may route. */
  lemma RoutedArrives(p: Program, parked: iset<Saved>, m: Machine, k: nat, c: Completion, saved: seq<Saved>)
    requires Listing(p.words, p.starts) && HeldIn(p, parked, m.saved) && k < |p.starts| && p.starts[k] == m.pc
    requires Routes(p, m, k, c, saved)
    ensures HeldIn(p, parked, saved) && Arrives(p, parked, k, c, m.pc)
    ensures saved != [] ==> Carries(p, parked, k, c, m.pc)
  {
    hide Decode, Prefix, Raises, FindHandler;
    RoutedPrefix(p, m, k, c, saved);
    if Replaying(p, m, k) && m.saved[|m.saved| - 1].completion != Ordinary {
      var top := m.saved[|m.saved| - 1];
      assert Saved(top.entry, top.completion) in parked;
      assert Replayed(p, parked, k, top.completion);
    }
  }

  /** From there on it still is what the code may route, wherever suppressed errors move it. */
  lemma SurfacedArrives(p: Program, m: Machine, k: nat, c: Completion, saved: seq<Saved>)
    requires Structured(p) && Listing(p.words, p.starts) && Sourced(p, m.saved) && k < |p.starts| && p.starts[k] == m.pc
    requires Routes(p, m, k, c, saved)
    ensures Arrives(p, Parked(p), k, c, SurfacesAt(p, m.(saved := saved), c, m.pc))
  {
    hide Structured, Decode, Prefix, Parked, Routes, Carries;
    RoutedArrives(p, Parked(p), m, k, c, saved);
    if saved != [] {
      CarriedOn(p, Parked(p), m.(saved := saved), k, c, m.pc);
    }
  }

  lemma DeliveryHeld(p: Program, parked: iset<Saved>, m: Machine, k: nat, c: Completion, x: nat, m': Machine)
    requires Listing(p.words, p.starts) && ParkingClosed(p, parked) && HeldIn(p, parked, m.saved)
    requires k < |p.starts| && Arrives(p, parked, k, c, x)
    requires Delivers(p, m, c, x, m')
    ensures HeldIn(p, parked, m'.saved)
  {
    hide Prefix, Arrives, FindHandler;
    var e := FindHandler(p.handlers, |p.handlers|, x, c);
    if e.Some? && IsFinalizer(p.handlers[e.value]) {
      assert Parks(p, parked, Saved(e.value, c));
    }
  }

  lemma {:induction false} DispatchHeld(p: Program, parked: iset<Saved>, m: Machine, k: nat, c: Completion, x: nat, m': Machine)
    requires Structured(p) && Listing(p.words, p.starts) && ParkingClosed(p, parked)
    requires HeldIn(p, parked, m.saved) && k < |p.starts|
    requires Arrives(p, parked, k, c, x) && (m.saved != [] ==> Carries(p, parked, k, c, x))
    requires Dispatches(p, m, c, x, m')
    ensures HeldIn(p, parked, m'.saved)
    decreases |m.saved|
  {
    hide Structured, Listing, Raises, Replayed, ClosesAt, Delivers, Kept, FindHandler;
    if Suppressed(p, m, c, x) {
      var top, rest := m.saved[|m.saved| - 1], m.saved[..|m.saved| - 1];
      NextClose(p, parked, k, x, top.entry);
      DispatchHeld(p, parked, m.(saved := rest), k, Throw, p.handlers[top.entry].handler, m');
    } else {
      var kept := Kept(p.handlers, m.saved, c, x, Candidate(p, c, x));
      assert HeldIn(p, parked, kept);
      DeliveryHeld(p, parked, m.(saved := kept), k, c, x, m');
    }
  }

  lemma StepHeld(p: Program, parked: iset<Saved>, m: Machine, m': Machine)
    requires Structured(p) && Listing(p.words, p.starts) && ParkingClosed(p, parked)
    requires HeldIn(p, parked, m.saved) && Step(p, m, m')
    ensures HeldIn(p, parked, m'.saved)
  {
    hide Structured, Listing, ParkingClosed, Dispatches, Routes, Arrives, Carries, Ends, EntersFinally, Resumes;
    var k := IndexOf(p.words, p.starts, m.pc);
    if RoutesTo(p, m, k, m') {
      var c, saved :| Routes(p, m, k, c, saved) && Dispatches(p, m.(saved := saved), c, m.pc, m');
      RoutedArrives(p, parked, m, k, c, saved);
      DispatchHeld(p, parked, m.(saved := saved), k, c, m.pc, m');
    } else {
      UnroutedHeld(p, parked, m, m', k);
    }
  }

  lemma UnroutedHeld(p: Program, parked: iset<Saved>, m: Machine, m': Machine, k: nat)
    requires Listing(p.words, p.starts) && HeldIn(p, parked, m.saved) && k < |p.starts|
    requires m'.saved == m.saved || EntersFinally(p, m, m') || Resumes(p, m, k, m') || m'.saved == []
    ensures HeldIn(p, parked, m'.saved)
  {
    hide Prefix;
  }

  /** Steps park only what the code may park. */
  lemma StepSourced(p: Program, m: Machine, m': Machine)
    requires Structured(p) && Listing(p.words, p.starts) && Sourced(p, m.saved) && Step(p, m, m')
    ensures Sourced(p, m'.saved)
  {
    hide Structured, Listing, Step, Parked, ParkingClosed;
    ParkedLeast(p);
    StepHeld(p, Parked(p), m, m');
  }

  /** Runs park only what the code may park. */
  lemma {:induction false} RunsSourced(p: Program, run: seq<Machine>, n: nat)
    requires Structured(p) && Listing(p.words, p.starts) && IsRun(p, run) && n < |run|
    ensures Sourced(p, run[n].saved)
  {
    hide Structured, Listing, Step, Parked;
    if n > 0 {
      RunsSourced(p, run, n - 1);
      StepSourced(p, run[n - 1], run[n]);
    }
  }

  // ----- The flow is exact -----

  /** Whatever machine holds only completions of `parked`, no step makes it hold another. */
  ghost predicate StepsKeep(p: Program, parked: iset<Saved>)
    requires Listing(p.words, p.starts)
  {
    forall m: Machine, m': Machine | HeldIn(p, parked, m.saved) && Step(p, m, m') :: HeldIn(p, parked, m'.saved)
  }

  /** Where the routing of `c` from `m` ends up: at `x` with nothing parked, at once or by giving way to one older throw. */
  ghost predicate ReachesAlone(p: Program, m: Machine, c: Completion, x: nat) {
    || (m.saved == [] && x == m.pc)
    || (|m.saved| == 1 && Suppressed(p, m, c, m.pc) && x == p.handlers[m.saved[0].entry].handler)
  }

  lemma ArrivingState(p: Program, parked: iset<Saved>, c: Completion, k: nat, x: nat, depth: nat)
    returns (m: Machine, saved: seq<Saved>)
    requires Listing(p.words, p.starts) && k < |p.starts| && Arrives(p, parked, k, c, x)
    ensures m.pc == p.starts[k] && m.depth == depth && HeldIn(p, parked, m.saved)
    ensures Routes(p, m, k, c, saved) && ReachesAlone(p, m.(saved := saved), c, x)
  {
    hide Decode, Prefix, FindHandler, Raises;
    if Carries(p, parked, k, c, x) {
      saved := [];
      if x != p.starts[k] {
        var e: nat :| Saved(e, Throw) in parked && e < |p.handlers| && p.handlers[e].kind == IteratorClose
          && BodyCovers(p.handlers[e], p.starts[k]) && x == p.handlers[e].handler;
        saved := [Saved(e, Throw)];
      }
      m := Machine(p.starts[k], depth, saved);
      if !Raises(p, k, c) {
        var e: nat :| Saved(e, c) in parked && e < |p.handlers| && BodyCovers(p.handlers[e], p.starts[k]);
        m := Machine(p.starts[k], depth, saved + [Saved(e, c)]);
      }
    } else {
      saved := [];
      m := Machine(p.starts[k], depth, []);
      if !IsReturn(At(p.words, p.starts, k).opcode) {
        var e: nat :| Saved(e, Return) in parked && e < |p.handlers| && BodyCovers(p.handlers[e], p.starts[k]);
        m := Machine(p.starts[k], depth, [Saved(e, Return)]);
      }
    }
  }

  lemma ParkedFrom(p: Program, m: Machine, s: Saved, x: nat, m': Machine)
    requires FindHandler(p.handlers, |p.handlers|, x, s.completion) == Some(s.entry) && IsFinalizer(p.handlers[s.entry])
    requires m.depth == p.handlers[s.entry].environmentDepth && ReachesAlone(p, m, s.completion, x)
    requires m' == Machine(p.handlers[s.entry].handler, m.depth, [s])
    ensures Dispatches(p, m, s.completion, m.pc, m')
  {
    hide FindHandler;
    if m.saved != [] {
      assert m.saved[..0] == [];
      assert Dispatches(p, m.(saved := []), Throw, x, m');
    }
  }

  /** The machine that routes the completion of `s` to its finalizer: beneath it at most a close that gives way. */
  lemma ParkingStep(p: Program, parked: iset<Saved>, s: Saved) returns (m: Machine, m': Machine)
    requires Listing(p.words, p.starts) && Parks(p, parked, s)
    ensures HeldIn(p, parked, m.saved) && Step(p, m, m') && m'.saved == [s] && s.completion != Ordinary
  {
    hide Decode, Prefix, FindHandler, Raises, Step, Dispatches, Arrives, HeldIn;
    var k: nat, x: nat :| k < |p.starts| && Arrives(p, parked, k, s.completion, x)
      && FindHandler(p.handlers, |p.handlers|, x, s.completion) == Some(s.entry) && IsFinalizer(p.handlers[s.entry]);
    var saved;
    m, saved := ArrivingState(p, parked, s.completion, k, x, p.handlers[s.entry].environmentDepth);
    m' := Machine(p.handlers[s.entry].handler, p.handlers[s.entry].environmentDepth, [s]);
    ParkedFrom(p, m.(saved := saved), s, x, m');
    IndexUnique(p.words, p.starts, k);
    assert RoutesTo(p, m, k, m');
    RoutedStep(p, m, k, m');
  }

  lemma RoutedStep(p: Program, m: Machine, k: nat, m': Machine)
    requires Listing(p.words, p.starts) && m.pc in p.starts && k == IndexOf(p.words, p.starts, m.pc) && RoutesTo(p, m, k, m')
    ensures Step(p, m, m')
  {
    hide Prefix, RoutesTo, Dispatches;
  }

  /** A set is closed under the flow exactly when steps keep to it. */
  lemma ClosedIffStepsKeep(p: Program, parked: iset<Saved>)
    requires Structured(p) && Listing(p.words, p.starts)
    ensures ParkingClosed(p, parked) <==> StepsKeep(p, parked)
  {
    hide Structured, Listing, Step, Parks, HeldIn;
    if ParkingClosed(p, parked) {
      forall m: Machine, m': Machine | HeldIn(p, parked, m.saved) && Step(p, m, m') ensures HeldIn(p, parked, m'.saved) {
        StepHeld(p, parked, m, m');
      }
    }
    if StepsKeep(p, parked) {
      forall s | Parks(p, parked, s) ensures s in parked {
        var m, m' := ParkingStep(p, parked, s);
        HeldAlone(p, parked, s);
      }
    }
  }

  lemma HeldAlone(p: Program, parked: iset<Saved>, s: Saved)
    requires HeldIn(p, parked, [s])
    ensures s.completion != Ordinary ==> s in parked
  {
    assert [s][0] == s;
  }

  /** The flow finds exactly what steps can park: the completions in every set that steps keep to. */
  lemma ParkedExact(p: Program, s: Saved)
    requires Structured(p) && Listing(p.words, p.starts)
    ensures s in Parked(p) <==> forall parked: iset<Saved> | StepsKeep(p, parked) :: s in parked
  {
    hide Structured, Listing, ParkingClosed, StepsKeep;
    forall parked: iset<Saved> ensures ParkingClosed(p, parked) <==> StepsKeep(p, parked) {
      ClosedIffStepsKeep(p, parked);
    }
  }
}
