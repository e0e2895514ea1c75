/** What validation demands of the completion instructions, in terms of what they do when they run. */
module BytecodeFinalizers {
  import opened Options
  import opened BytecodeEncoding
  import opened BytecodeVerifier
  import opened BytecodeHandlers
  import opened BytecodeEnvironments
  import opened BytecodeRuns
  import opened BytecodeDispatch

  ghost predicate AllowedAt(p: Program, k: nat)
    requires Listing(p.words, p.starts) && k < |p.starts|
  {
    FinallyAllowed(p.handlers, At(p.words, p.starts, k), p.starts[k], Following(p.starts, |p.words|, k), |Stack(p.words, p.starts, k)|)
  }

  /** The state at instruction `k` with the static depth of that instruction. */
  ghost function StandingAt(p: Program, k: nat, saved: seq<Saved>): (m: Machine)
    requires Listing(p.words, p.starts) && k < |p.starts|
  {
    Machine(p.starts[k], |Stack(p.words, p.starts, k)|, saved)
  }

  lemma StandingAgrees(p: Program, k: nat, saved: seq<Saved>)
    requires Listing(p.words, p.starts) && k < |p.starts| && SavedAgree(p, saved)
    ensures Agrees(p, StandingAt(p, k, saved)) && IndexOf(p.words, p.starts, p.starts[k]) == k
  {
    hide Decode, Prefix, Stack;
    IndexUnique(p.words, p.starts, k);
  }

  /** `EnterFinally` is allowed exactly where it can be executed at all. */
  lemma EnterAllowedIff(p: Program, k: nat)
    requires Listing(p.words, p.starts) && k < |p.starts| && At(p.words, p.starts, k).opcode == ENTER_FINALLY
    ensures AllowedAt(p, k) <==> exists m, m' :: Agrees(p, m) && m.pc == p.starts[k] && Step(p, m, m')
  {
    hide Decode, Prefix, Step, Agrees, Stack;
    StandingAgrees(p, k, []);
    if AllowedAt(p, k) {
      var m' := EnterPossible(p, k);
      assert Agrees(p, StandingAt(p, k, []));
    }
    if m, m' :| Agrees(p, m) && m.pc == p.starts[k] && Step(p, m, m') {
      AgreesOnStart(p, m);
      EnterStepIff(p, m, m');
      var e :| 0 <= e < |p.handlers| && p.handlers[e].kind != Catch && p.handlers[e].start <= m.pc < p.handlers[e].end;
      assert IsFinalizer(p.handlers[e]) && Protects(p.handlers[e], p.starts[k]);
    }
  }

  lemma EnterPossible(p: Program, k: nat) returns (m': Machine)
    requires Listing(p.words, p.starts) && k < |p.starts| && At(p.words, p.starts, k).opcode == ENTER_FINALLY && AllowedAt(p, k)
    ensures Step(p, StandingAt(p, k, []), m')
  {
    hide Decode, Prefix, Dispatches, Stack;
    IndexUnique(p.words, p.starts, k);
    var m, e := StandingAt(p, k, []), FindFinally(p.handlers, |p.handlers|, p.starts[k]);
    m' := Machine(p.handlers[e.value].handler, m.depth, [Saved(e.value, Ordinary)]);
    assert EntersFinally(p, m, m');
  }

  /** The finalizer of `e` runs with nothing parked above it, and `ResumeCompletion` at `k` takes the machine to its end. */
  ghost predicate EndsFinalizer(p: Program, k: nat, m: Machine, m': Machine, e: nat)
    requires Listing(p.words, p.starts) && k < |p.starts|
  {
    && Agrees(p, m) && m.pc == p.starts[k] && m.saved != [] && m.saved[|m.saved| - 1] == Saved(e, Ordinary)
    && Step(p, m, m') && e < |p.handlers| && m'.pc == p.handlers[e].handlerEnd
  }

  /** `ResumeCompletion` is allowed exactly where it ends the body of a finalizer: some agreeing state replays there
      and comes out right behind that body. */
  lemma ResumeAllowedIff(p: Program, k: nat)
    requires Listing(p.words, p.starts) && k < |p.starts| && At(p.words, p.starts, k).opcode == RESUME_COMPLETION
    ensures AllowedAt(p, k) <==> exists m, m', e :: EndsFinalizer(p, k, m, m', e)
  {
    hide Decode, Prefix, Stack, EndsFinalizer;
    if AllowedAt(p, k) {
      var m, m', e := ResumePossible(p, k);
    }
    if m, m', e :| EndsFinalizer(p, k, m, m', e) {
      ResumeEnds(p, k, m, m', e);
    }
  }

  lemma ResumePossible(p: Program, k: nat) returns (m: Machine, m': Machine, e: nat)
    requires Listing(p.words, p.starts) && k < |p.starts| && At(p.words, p.starts, k).opcode == RESUME_COMPLETION && AllowedAt(p, k)
    ensures EndsFinalizer(p, k, m, m', e)
  {
    hide Decode, Adjacent, Dispatches, Stack;
    var next := Following(p.starts, |p.words|, k);
    AdjacentAhead(p.words, p.starts[k], next);
    e :| 0 <= e < |p.handlers| && IsFinalizer(p.handlers[e]) && p.handlers[e].handler <= p.starts[k] && p.handlers[e].handlerEnd == next;
    var saved := [Saved(e, Ordinary)];
    StandingAgrees(p, k, saved);
    m, m' := StandingAt(p, k, saved), StandingAt(p, k, []).(pc := next);
    assert saved[..0] == [];
    assert Resumes(p, m, k, m');
  }

  lemma ResumeEnds(p: Program, k: nat, m: Machine, m': Machine, e: nat)
    requires Listing(p.words, p.starts) && k < |p.starts| && At(p.words, p.starts, k).opcode == RESUME_COMPLETION
    requires EndsFinalizer(p, k, m, m', e)
    ensures AllowedAt(p, k)
  {
    hide Decode, Prefix, Dispatches, Stack, Step;
    IndexUnique(p.words, p.starts, k);
    ResumeStepIff(p, m, m');
    assert IsFinalizer(p.handlers[e]);
  }

  /** A break or continue is allowed exactly where a plain jump would not do: it closes an environment, a finalizer takes
      it, or it exits one that may be running. */
  lemma BreakAllowedIff(p: Program, k: nat)
    requires Listing(p.words, p.starts) && k < |p.starts| && At(p.words, p.starts, k).opcode in {72, 73}
    ensures var i := At(p.words, p.starts, k);
      var c := Jump(i.operands[0], i.operands[1]);
      AllowedAt(p, k)
      <==> || c.depth < |Stack(p.words, p.starts, k)|
           || (exists e :: 0 <= e < |p.handlers| && Takes(p.handlers[e], c, p.starts[k]))
           || (exists e :: 0 <= e < |p.handlers| && p.handlers[e].kind != Catch
                           && p.handlers[e].handler <= p.starts[k] < p.handlers[e].handlerEnd && Exits(p.handlers[e], c, p.starts[k], None))
  {
    hide Decode, Prefix, Stack;
    var i, o := At(p.words, p.starts, k), p.starts[k];
    var c := Jump(i.operands[0], i.operands[1]);
    forall e | 0 <= e < |p.handlers|
      ensures CrossesFinalizer(p.handlers[e], o, i.operands[0])
              <==> || Takes(p.handlers[e], c, o)
                   || (p.handlers[e].kind != Catch && p.handlers[e].handler <= o < p.handlers[e].handlerEnd && Exits(p.handlers[e], c, o, None))
    {
    }
  }

  /** All other instructions are allowed everywhere. */
  lemma OthersAllowed(p: Program, k: nat)
    requires Listing(p.words, p.starts) && k < |p.starts| && At(p.words, p.starts, k).opcode !in {70, 71, 72, 73}
    ensures AllowedAt(p, k)
  {
    hide Decode, Prefix, Stack;
  }

  /** What each completion instruction must be able to do. */
  ghost predicate Purposeful(p: Program, k: nat)
    requires Listing(p.words, p.starts) && k < |p.starts|
  {
    var i := At(p.words, p.starts, k);
    && (i.opcode == ENTER_FINALLY ==> exists m, m' :: Agrees(p, m) && m.pc == p.starts[k] && Step(p, m, m'))
    && (i.opcode == RESUME_COMPLETION ==> exists m, m', e :: EndsFinalizer(p, k, m, m', e))
    && (i.opcode in {72, 73} ==>
          var c := Jump(i.operands[0], i.operands[1]);
          || c.depth < |Stack(p.words, p.starts, k)|
          || (exists e :: 0 <= e < |p.handlers| && Takes(p.handlers[e], c, p.starts[k]))
          || (exists e :: 0 <= e < |p.handlers| && p.handlers[e].kind != Catch
                          && p.handlers[e].handler <= p.starts[k] < p.handlers[e].handlerEnd && Exits(p.handlers[e], c, p.starts[k], None)))
  }

  lemma PurposefulIff(p: Program, k: nat)
    requires Listing(p.words, p.starts) && k < |p.starts|
    ensures AllowedAt(p, k) <==> Purposeful(p, k)
  {
    hide Decode, Prefix, Stack, Step, Agrees, EndsFinalizer, Takes, Exits, FinallyAllowed;
    var op := At(p.words, p.starts, k).opcode;
    if op == ENTER_FINALLY {
      EnterAllowedIff(p, k);
    } else if op == RESUME_COMPLETION {
      ResumeAllowedIff(p, k);
    } else if op in {72, 73} {
      BreakAllowedIff(p, k);
    } else {
      OthersAllowed(p, k);
    }
  }

  /** Validation accepts exactly the functions whose completion instructions all have something to do. */
  lemma FinallyAcceptedIff(p: Program)
    requires Listing(p.words, p.starts)
    ensures FinallyAccepted(p.words, p.starts, p.handlers) <==> forall k | 0 <= k < |p.starts| :: Purposeful(p, k)
  {
    hide Decode, Prefix, Stack, Purposeful, FinallyAllowed;
    forall k | 0 <= k < |p.starts| ensures AllowedAt(p, k) <==> Purposeful(p, k) {
      PurposefulIff(p, k);
    }
    if FinallyAccepted(p.words, p.starts, p.handlers) {
      forall k | 0 <= k < |p.starts| ensures AllowedAt(p, k) {
        assert AllowedAt(p, k);
      }
    }
    if forall k | 0 <= k < |p.starts| :: Purposeful(p, k) {
      forall k | 0 <= k < |p.starts|
        ensures FinallyAllowed(p.handlers, At(p.words, p.starts, k), p.starts[k], Following(p.starts, |p.words|, k), |Stack(p.words, p.starts, k)|)
      {
        assert Purposeful(p, k) && AllowedAt(p, k);
      }
    }
  }
}
