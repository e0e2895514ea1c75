/** A function every validation pass accepts whose finalizer replays a break that cannot be completed. */
module BytecodeReplayed {
  import opened Options
  import opened BytecodeEncoding
  import opened BytecodeVerifier
  import opened BytecodeHandlers
  import opened BytecodeEnvironments
  import opened BytecodeRuns
  import opened BytecodeRestores

  /** EnterLexicalEnvironment 1 0; BreakThroughFinally 6 1; LeaveLexicalEnvironment; ReturnUndefined;
      ResumeCompletion; ReturnUndefined. The break stays at depth one; its finalizer runs at depth zero. */
  const CODE: seq<Word> := [461, 1, 0, 200, 6, 1, 463, 46, 199, 46]
  const STARTS: seq<nat> := [0, 3, 6, 7, 8, 9]
  const TABLE: seq<Handler> := [Handler(3, 6, 8, 9, Finally, 0)]
  const POOL := Pool([], 0, 0, 1)
  const PROGRAM := Program(CODE, STARTS, TABLE, 0, false)
  const PARKED_BREAK := Saved(0, Jump(6, 1))
  const RUN: seq<Machine> := [INITIAL, Machine(3, 1, []), Machine(8, 0, [PARKED_BREAK])]

  lemma EnterDecodes()
    ensures Decode(CODE, 0) == Ok(Instruction(141, Wide, [1, 0, 0], 3))
  {
    assert CODE[1..3] == [1, 0];
  }

  lemma BreakDecodes()
    ensures Decode(CODE, 3) == Ok(Instruction(72, Wide, [6, 1, 0], 3))
  {
    assert CODE[4..6] == [6, 1];
  }

  lemma LeaveDecodes()
    ensures Decode(CODE, 6) == Ok(Instruction(143, Wide, [0, 0, 0], 1))
  {
  }

  lemma ResumeDecodes()
    ensures Decode(CODE, 8) == Ok(Instruction(71, Wide, [0, 0, 0], 1))
  {
  }

  lemma ReturnDecodes(offset: nat)
    requires offset == 7 || offset == 9
    ensures Decode(CODE, offset) == Ok(Instruction(46, Compact, [0, 0, 0], 1))
  {
    assert CODE[offset] == 46;
  }

  lemma CodeListed()
    ensures Listing(CODE, STARTS)
    ensures At(CODE, STARTS, 0).opcode == 141 && At(CODE, STARTS, 1).opcode == BREAK_THROUGH_FINALLY
    ensures At(CODE, STARTS, 2).opcode == 143 && At(CODE, STARTS, 3).opcode == RETURN_UNDEFINED
    ensures At(CODE, STARTS, 4).opcode == RESUME_COMPLETION && At(CODE, STARTS, 5).opcode == RETURN_UNDEFINED
    ensures At(CODE, STARTS, 0).operands[0] == 1 && At(CODE, STARTS, 0).operands[1] == 0
    ensures At(CODE, STARTS, 1).operands[0] == 6 && At(CODE, STARTS, 1).operands[1] == 1
  {
    hide Decode;
    EnterDecodes();
    BreakDecodes();
    LeaveDecodes();
    ResumeDecodes();
    ReturnDecodes(7);
    ReturnDecodes(9);
    assert Adjacent(CODE, STARTS[0], 3) && Adjacent(CODE, STARTS[1], 6) && Adjacent(CODE, STARTS[2], 7);
    assert Adjacent(CODE, STARTS[3], 8) && Adjacent(CODE, STARTS[4], 9) && Adjacent(CODE, STARTS[5], 10);
  }

  lemma StartsHere()
    ensures 0 in STARTS && 3 in STARTS && 6 in STARTS && 8 in STARTS && 9 in STARTS
  {
    assert STARTS[0] == 0 && STARTS[1] == 3 && STARTS[2] == 6 && STARTS[4] == 8 && STARTS[5] == 9;
  }

  lemma InstructionChecked(k: nat)
    requires k < |STARTS|
    ensures Listing(CODE, STARTS)
    ensures InstructionVerified(At(CODE, STARTS, k), STARTS, 0)
    ensures OperandsVerified(At(CODE, STARTS, k).opcode, At(CODE, STARTS, k).operands, POOL)
  {
    hide Decode, Prefix, At;
    CodeListed();
    StartsHere();
  }

  lemma CodeVerified()
    ensures FullyVerified(CODE, STARTS, 0, POOL)
  {
    hide Decode, Prefix, InstructionVerified, OperandsVerified;
    CodeListed();
    forall k | 0 <= k < |STARTS|
      ensures InstructionVerified(At(CODE, STARTS, k), STARTS, 0)
      ensures OperandsVerified(At(CODE, STARTS, k).opcode, At(CODE, STARTS, k).operands, POOL)
    {
      InstructionChecked(k);
    }
  }

  lemma TableAccepted()
    ensures Listing(CODE, STARTS) && HandlersAccepted(CODE, STARTS, TABLE)
  {
    hide Decode, Prefix;
    CodeListed();
    StartsHere();
    assert Following(STARTS, |CODE|, 4) == 9 && At(CODE, STARTS, 4).opcode == RESUME_COMPLETION;
    assert EntryValid(CODE, STARTS, TABLE[0]);
  }

  lemma Stacks()
    ensures Listing(CODE, STARTS)
    ensures Stack(CODE, STARTS, 0) == [] && Stack(CODE, STARTS, 1) == [1] && Stack(CODE, STARTS, 2) == [1]
    ensures Stack(CODE, STARTS, 3) == [] && Stack(CODE, STARTS, 4) == [] && Stack(CODE, STARTS, 5) == []
    ensures Stack(CODE, STARTS, 6) == []
  {
    hide Decode, Prefix;
    CodeListed();
    assert Stack(CODE, STARTS, 0) == [];
    assert Stack(CODE, STARTS, 1) == [1];
    assert Stack(CODE, STARTS, 2) == [1];
    assert Stack(CODE, STARTS, 3) == [];
    assert Stack(CODE, STARTS, 4) == [];
    assert Stack(CODE, STARTS, 5) == [];
  }

  lemma StartDepths()
    ensures Listing(CODE, STARTS) && 6 in STARTS && 8 in STARTS
    ensures DepthAt(CODE, STARTS, 6) == 1 && DepthAt(CODE, STARTS, 8) == 0
  {
    hide Decode, Prefix, Stack, Listing, At, IndexOf;
    Stacks();
    StartsHere();
    IndexUnique(CODE, STARTS, 2);
    IndexUnique(CODE, STARTS, 4);
  }

  lemma InstructionAllowed(k: nat)
    requires k < |STARTS|
    ensures Listing(CODE, STARTS) && (HasTarget(At(CODE, STARTS, k).opcode) ==> k == 1)
    ensures StackAllows(At(CODE, STARTS, k), Stack(CODE, STARTS, k))
  {
    hide Decode, Prefix, Stack, Listing, At;
    CodeListed();
    Stacks();
  }

  lemma EnvironmentsValid()
    ensures Listing(CODE, STARTS) && TargetsListed(PROGRAM) && EnvironmentsAccepted(CODE, STARTS, TABLE)
  {
    hide Decode, Prefix, Stack, Listing, At, StackAllows, DepthAt;
    CodeListed();
    Stacks();
    StartsHere();
    StartDepths();
    forall k | 0 <= k < |STARTS|
      ensures HasTarget(At(CODE, STARTS, k).opcode) ==> k == 1
      ensures StackAllows(At(CODE, STARTS, k), Stack(CODE, STARTS, k))
    {
      InstructionAllowed(k);
    }
  }

  lemma FinallyValid()
    ensures Listing(CODE, STARTS) && FinallyAccepted(CODE, STARTS, TABLE) && Aligned(PROGRAM)
  {
    hide Decode, Prefix, Stack, Listing, At, IsAbrupt;
    CodeListed();
    Stacks();
    assert CrossesFinalizer(TABLE[0], 3, 6);
    assert IsFinalizer(TABLE[0]) && TABLE[0].handler <= 8 && TABLE[0].handlerEnd == Following(STARTS, |CODE|, 4);
    forall k | 0 <= k < |STARTS|
      ensures FinallyAllowed(TABLE, At(CODE, STARTS, k), STARTS[k], Following(STARTS, |CODE|, k), |Stack(CODE, STARTS, k)|)
    {
      InstructionFinally(k);
    }
  }

  lemma InstructionFinally(k: nat)
    requires k < |STARTS|
    ensures Listing(CODE, STARTS)
    ensures FinallyAllowed(TABLE, At(CODE, STARTS, k), STARTS[k], Following(STARTS, |CODE|, k), |Stack(CODE, STARTS, k)|)
  {
    hide Decode, Prefix, Stack, Listing, At;
    CodeListed();
    assert CrossesFinalizer(TABLE[0], 3, 6);
    assert IsFinalizer(TABLE[0]) && TABLE[0].handler <= 8 && TABLE[0].handlerEnd == Following(STARTS, |CODE|, 4);
  }

  lemma ProgramAccepted()
    ensures FullyVerified(CODE, STARTS, 0, POOL) && Accepted(PROGRAM) && FinallyAccepted(CODE, STARTS, TABLE) && Aligned(PROGRAM)
  {
    hide Decode, Prefix, Stack, Verified, HandlersAccepted, EnvironmentsAccepted, TargetsListed, FinallyAccepted, Aligned;
    CodeVerified();
    TableAccepted();
    EnvironmentsValid();
    FinallyValid();
  }

  lemma BreakRuns()
    ensures Listing(CODE, STARTS) && IsRun(PROGRAM, RUN)
  {
    hide Decode, Prefix, Stack, Dispatches;
    CodeListed();
    StartsHere();
    IndexUnique(CODE, STARTS, 0);
    IndexUnique(CODE, STARTS, 1);
    assert Step(PROGRAM, RUN[0], RUN[1]);
    BreakParked();
    assert Routes(PROGRAM, RUN[1], 1, Jump(6, 1), []);
    assert Step(PROGRAM, RUN[1], RUN[2]);
  }

  lemma BreakParked()
    ensures Dispatches(PROGRAM, RUN[1], Jump(6, 1), 3, RUN[2])
  {
    assert FindHandler(TABLE, 1, 3, Jump(6, 1)) == Some(0);
  }

  /** At the resume only the break is routed, and its target lies one environment above. */
  lemma ReplayStuck()
    ensures Listing(CODE, STARTS) && forall m' :: !Step(PROGRAM, RUN[2], m')
  {
    hide Decode, Prefix, Stack, IsDelivered, RoutesTo;
    CodeListed();
    StartsHere();
    IndexUnique(CODE, STARTS, 4);
    assert FindHandler(TABLE, 1, 8, Jump(6, 1)) == None;
    DeliveredIff(PROGRAM, RUN[2].(saved := []), Jump(6, 1), 8);
    forall c, saved | Routes(PROGRAM, RUN[2], 4, c, saved) ensures !IsDelivered(PROGRAM, RUN[2].(saved := saved), c, 8) {
      RoutedPrefix(PROGRAM, RUN[2], 4, c, saved);
      assert saved == [] && c == Jump(6, 1);
    }
    UndeliveredStuck(PROGRAM, RUN[2], 4);
  }

  /** A run of an accepted, aligned function is stuck at its resume with a break that has a target. */
  lemma ReplayObstructed()
    ensures FullyVerified(CODE, STARTS, 0, POOL) && Accepted(PROGRAM) && FinallyAccepted(CODE, STARTS, TABLE) && Aligned(PROGRAM)
    ensures Listing(CODE, STARTS) && IsRun(PROGRAM, RUN)
    ensures RestoredDepth(PROGRAM, PARKED_BREAK.completion, RUN[2].pc) == Some(1)
    ensures forall m' :: !Step(PROGRAM, RUN[2], m')
  {
    hide Decode, Prefix, Stack, Accepted, FinallyAccepted, Aligned, DepthAt, Step, IsRun;
    ProgramAccepted();
    BreakRuns();
    assert FindHandler(TABLE, 1, 8, Jump(6, 1)) == None;
    ReplayStuck();
  }
}
