/** A function every validation pass accepts whose run enters a finalizer one environment too deep. */
module BytecodeMisaligned {
  import opened Options
  import opened BytecodeEncoding
  import opened BytecodeVerifier
  import opened BytecodeHandlers
  import opened BytecodeEnvironments
  import opened BytecodeRuns

  /** EnterLexicalEnvironment 1 0; EnterFinally; LeaveLexicalEnvironment; ResumeCompletion; ReturnUndefined. */
  const CODE: seq<Word> := [461, 1, 0, 198, 463, 199, 46]
  const STARTS: seq<nat> := [0, 3, 4, 5, 6]
  const TABLE: seq<Handler> := [Handler(0, 4, 5, 6, Finally, 0)]
  const POOL := Pool([], 0, 0, 1)
  const PROGRAM := Program(CODE, STARTS, TABLE, 0, false)

  lemma EnterDecodes()
    ensures Decode(CODE, 0) == Ok(Instruction(141, Wide, [1, 0, 0], 3))
  {
    assert CODE[1..3] == [1, 0];
  }

  lemma FinallyDecodes()
    ensures Decode(CODE, 3) == Ok(Instruction(70, Wide, [0, 0, 0], 1))
  {
  }

  lemma LeaveDecodes()
    ensures Decode(CODE, 4) == Ok(Instruction(143, Wide, [0, 0, 0], 1))
  {
  }

  lemma ResumeDecodes()
    ensures Decode(CODE, 5) == Ok(Instruction(71, Wide, [0, 0, 0], 1))
  {
  }

  lemma ReturnDecodes()
    ensures Decode(CODE, 6) == Ok(Instruction(46, Compact, [0, 0, 0], 1))
  {
  }

  lemma CodeListed()
    ensures Listing(CODE, STARTS)
    ensures At(CODE, STARTS, 0).opcode == 141 && At(CODE, STARTS, 1).opcode == 70 && At(CODE, STARTS, 2).opcode == 143
    ensures At(CODE, STARTS, 3).opcode == 71 && At(CODE, STARTS, 4).opcode == 46
    ensures At(CODE, STARTS, 0).operands[0] == 1 && At(CODE, STARTS, 0).operands[1] == 0
  {
    hide Decode;
    EnterDecodes();
    FinallyDecodes();
    LeaveDecodes();
    ResumeDecodes();
    ReturnDecodes();
    assert Adjacent(CODE, STARTS[0], 3) && Adjacent(CODE, STARTS[1], 4) && Adjacent(CODE, STARTS[2], 5);
    assert Adjacent(CODE, STARTS[3], 6) && Adjacent(CODE, STARTS[4], 7);
  }

  lemma InstructionChecked(k: nat)
    requires k < |STARTS|
    ensures Listing(CODE, STARTS)
    ensures InstructionVerified(At(CODE, STARTS, k), STARTS, 0)
    ensures OperandsVerified(At(CODE, STARTS, k).opcode, At(CODE, STARTS, k).operands, POOL)
  {
    hide Decode, Prefix, At;
    CodeListed();
  }

  lemma CodeVerified()
    ensures FullyVerified(CODE, STARTS, 0, POOL)
  {
    hide Decode, Prefix, InstructionVerified, OperandsVerified;
    CodeListed();
    forall k | 0 <= k < |STARTS|
      ensures InstructionVerified(At(CODE, STARTS, k), STARTS, 0)
      ensures OperandsVerified(At(CODE, STARTS, k).opcode, At(CODE, STARTS, k).operands, POOL)
    {
      InstructionChecked(k);
    }
  }

  lemma TableAccepted()
    ensures Listing(CODE, STARTS) && HandlersAccepted(CODE, STARTS, TABLE)
  {
    hide Decode, Prefix;
    CodeListed();
    assert Following(STARTS, |CODE|, 3) == 6 && At(CODE, STARTS, 3).opcode == RESUME_COMPLETION;
    assert 0 in STARTS && 4 in STARTS && 5 in STARTS && 6 in STARTS by {
      assert STARTS[0] == 0 && STARTS[2] == 4 && STARTS[3] == 5 && STARTS[4] == 6;
    }
    assert EntryValid(CODE, STARTS, TABLE[0]);
  }

  lemma Stacks()
    ensures Listing(CODE, STARTS)
    ensures Stack(CODE, STARTS, 0) == [] && Stack(CODE, STARTS, 1) == [1] && Stack(CODE, STARTS, 2) == [1]
    ensures Stack(CODE, STARTS, 3) == [] && Stack(CODE, STARTS, 4) == [] && Stack(CODE, STARTS, 5) == []
  {
    hide Decode, Prefix;
    CodeListed();
    assert Stack(CODE, STARTS, 0) == [];
    assert Stack(CODE, STARTS, 1) == [1];
    assert Stack(CODE, STARTS, 2) == [1];
    assert Stack(CODE, STARTS, 3) == [];
    assert Stack(CODE, STARTS, 4) == [];
  }

  lemma InstructionAllowed(k: nat)
    requires k < |STARTS|
    ensures Listing(CODE, STARTS) && !HasTarget(At(CODE, STARTS, k).opcode)
    ensures StackAllows(At(CODE, STARTS, k), Stack(CODE, STARTS, k))
  {
    hide Decode, Prefix, Stack, Listing, At;
    CodeListed();
    Stacks();
  }

  lemma FinalizerDepth()
    ensures Listing(CODE, STARTS) && 5 in STARTS && DepthAt(CODE, STARTS, 5) == 0
  {
    hide Decode, Prefix, Stack, Listing, At, IndexOf;
    Stacks();
    assert STARTS[3] == 5;
    IndexUnique(CODE, STARTS, 3);
  }

  lemma EnvironmentsValid()
    ensures Listing(CODE, STARTS) && TargetsListed(PROGRAM)
    ensures EnvironmentsAccepted(CODE, STARTS, TABLE) && DepthAt(CODE, STARTS, 5) == 0
  {
    hide Decode, Prefix, Stack, Listing, At, StackAllows, DepthAt, HasTarget;
    Stacks();
    FinalizerDepth();
    forall k | 0 <= k < |STARTS|
      ensures !HasTarget(At(CODE, STARTS, k).opcode)
      ensures StackAllows(At(CODE, STARTS, k), Stack(CODE, STARTS, k))
    {
      InstructionAllowed(k);
    }
  }

  lemma FinallyValid()
    ensures Listing(CODE, STARTS) && FinallyAccepted(CODE, STARTS, TABLE)
  {
    hide Decode, Prefix, Stack;
    CodeListed();
    assert IsFinalizer(TABLE[0]) && Protects(TABLE[0], 3);
  }

  lemma ProgramAccepted()
    ensures FullyVerified(CODE, STARTS, 0, POOL) && Accepted(PROGRAM) && FinallyAccepted(CODE, STARTS, TABLE) && DepthAt(CODE, STARTS, 5) == 0
  {
    hide Decode, Prefix, Stack, Verified, HandlersAccepted, EnvironmentsAccepted, TargetsListed, FinallyAccepted, DepthAt;
    CodeVerified();
    TableAccepted();
    EnvironmentsValid();
    FinallyValid();
  }

  /** Two steps from the initial state the dynamic depth is one where the static depth is zero. */
  lemma MisalignedRun()
    ensures FullyVerified(CODE, STARTS, 0, POOL) && Accepted(PROGRAM) && FinallyAccepted(CODE, STARTS, TABLE)
    ensures exists run :: IsRun(PROGRAM, run) && |run| == 3 && !Agrees(PROGRAM, run[2])
  {
    hide Decode, Prefix, Stack, Accepted, DepthAt, Dispatches, FinallyAccepted;
    ProgramAccepted();
    CodeListed();
    IndexUnique(CODE, STARTS, 0);
    IndexUnique(CODE, STARTS, 1);
    assert STARTS[0] == 0 && STARTS[1] == 3;
    var entered := Machine(3, 1, []);
    var finalizing := Machine(5, 1, [Saved(0, Ordinary)]);
    assert Step(PROGRAM, INITIAL, entered);
    assert FindFinally(TABLE, 1, 3) == Some(0);
    assert EntersFinally(PROGRAM, entered, finalizing);
    assert Step(PROGRAM, entered, finalizing);
    assert IsRun(PROGRAM, [INITIAL, entered, finalizing]);
    assert 5 in STARTS by { assert STARTS[3] == 5; }
  }
}
