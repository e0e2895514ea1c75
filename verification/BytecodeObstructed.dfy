/** A function every validation pass accepts whose first instruction throws into a handler that cannot be entered. */
module BytecodeObstructed {
  import opened Options
  import opened BytecodeEncoding
  import opened BytecodeVerifier
  import opened BytecodeHandlers
  import opened BytecodeEnvironments
  import opened BytecodeRuns
  import opened BytecodeRestores

  /** Throw 0; EnterLexicalEnvironment 1 0; LeaveLexicalEnvironment; ReturnUndefined. The handler of the first
      instruction starts inside the environment. */
  const CODE: seq<Word> := [12, 461, 1, 0, 463, 46]
  const STARTS: seq<nat> := [0, 1, 4, 5]
  const TABLE: seq<Handler> := [Handler(0, 1, 4, 4, Catch, 1)]
  const POOL := Pool([], 0, 0, 1)
  const PROGRAM := Program(CODE, STARTS, TABLE, 1, false)

  lemma ThrowDecodes()
    ensures Decode(CODE, 0) == Ok(Instruction(12, Compact, [0, 0, 0], 1))
  {
    assert CompactOperands(12, 1) == [0];
  }

  lemma EnterDecodes()
    ensures Decode(CODE, 1) == Ok(Instruction(141, Wide, [1, 0, 0], 3))
  {
    assert CODE[2..4] == [1, 0];
  }

  lemma LeaveDecodes()
    ensures Decode(CODE, 4) == Ok(Instruction(143, Wide, [0, 0, 0], 1))
  {
  }

  lemma ReturnDecodes()
    ensures Decode(CODE, 5) == Ok(Instruction(46, Compact, [0, 0, 0], 1))
  {
  }

  lemma CodeListed()
    ensures Listing(CODE, STARTS)
    ensures At(CODE, STARTS, 0).opcode == THROW && At(CODE, STARTS, 0).operands[0] == 0 && At(CODE, STARTS, 1).opcode == 141
    ensures At(CODE, STARTS, 2).opcode == 143 && At(CODE, STARTS, 3).opcode == 46
    ensures At(CODE, STARTS, 1).operands[0] == 1 && At(CODE, STARTS, 1).operands[1] == 0
  {
    hide Decode;
    ThrowDecodes();
    EnterDecodes();
    LeaveDecodes();
    ReturnDecodes();
    assert Adjacent(CODE, STARTS[0], 1) && Adjacent(CODE, STARTS[1], 4);
    assert Adjacent(CODE, STARTS[2], 5) && Adjacent(CODE, STARTS[3], 6);
  }

  lemma InstructionChecked(k: nat)
    requires k < |STARTS|
    ensures Listing(CODE, STARTS)
    ensures InstructionVerified(At(CODE, STARTS, k), STARTS, 1)
    ensures OperandsVerified(At(CODE, STARTS, k).opcode, At(CODE, STARTS, k).operands, POOL)
  {
    hide Decode, Prefix, At;
    CodeListed();
  }

  lemma CodeVerified()
    ensures FullyVerified(CODE, STARTS, 1, POOL)
  {
    hide Decode, Prefix, InstructionVerified, OperandsVerified;
    CodeListed();
    forall k | 0 <= k < |STARTS|
      ensures InstructionVerified(At(CODE, STARTS, k), STARTS, 1)
      ensures OperandsVerified(At(CODE, STARTS, k).opcode, At(CODE, STARTS, k).operands, POOL)
    {
      InstructionChecked(k);
    }
  }

  lemma TableAccepted()
    ensures Listing(CODE, STARTS) && HandlersAccepted(CODE, STARTS, TABLE)
  {
    hide Decode, Prefix;
    CodeListed();
    assert 0 in STARTS && 1 in STARTS && 4 in STARTS by {
      assert STARTS[0] == 0 && STARTS[1] == 1 && STARTS[2] == 4;
    }
    assert EntryValid(CODE, STARTS, TABLE[0]);
  }

  lemma Stacks()
    ensures Listing(CODE, STARTS)
    ensures Stack(CODE, STARTS, 0) == [] && Stack(CODE, STARTS, 1) == [] && Stack(CODE, STARTS, 2) == [1]
    ensures Stack(CODE, STARTS, 3) == [] && Stack(CODE, STARTS, 4) == []
  {
    hide Decode, Prefix;
    CodeListed();
    assert Stack(CODE, STARTS, 0) == [];
    assert Stack(CODE, STARTS, 1) == [];
    assert Stack(CODE, STARTS, 2) == [1];
    assert Stack(CODE, STARTS, 3) == [];
  }

  lemma InstructionAllowed(k: nat)
    requires k < |STARTS|
    ensures Listing(CODE, STARTS) && !HasTarget(At(CODE, STARTS, k).opcode)
    ensures StackAllows(At(CODE, STARTS, k), Stack(CODE, STARTS, k))
    ensures At(CODE, STARTS, k).opcode != ENTER_FINALLY && At(CODE, STARTS, k).opcode != RESUME_COMPLETION
  {
    hide Decode, Prefix, Stack, Listing, At;
    CodeListed();
    Stacks();
  }

  lemma StartDepths()
    ensures Listing(CODE, STARTS) && 0 in STARTS && 4 in STARTS
    ensures DepthAt(CODE, STARTS, 4) == 1 && DepthAt(CODE, STARTS, 0) == 0
  {
    hide Decode, Prefix, Stack, Listing, At, IndexOf;
    Stacks();
    assert STARTS[2] == 4 && STARTS[0] == 0;
    IndexUnique(CODE, STARTS, 2);
    IndexUnique(CODE, STARTS, 0);
  }

  lemma EnvironmentsValid()
    ensures Listing(CODE, STARTS) && TargetsListed(PROGRAM)
    ensures EnvironmentsAccepted(CODE, STARTS, TABLE) && FinallyAccepted(CODE, STARTS, TABLE) && Aligned(PROGRAM)
  {
    hide Decode, Prefix, Stack, Listing, At, StackAllows, DepthAt, HasTarget;
    Stacks();
    StartDepths();
    forall k | 0 <= k < |STARTS|
      ensures !HasTarget(At(CODE, STARTS, k).opcode) && !IsAbrupt(At(CODE, STARTS, k).opcode)
      ensures StackAllows(At(CODE, STARTS, k), Stack(CODE, STARTS, k))
      ensures At(CODE, STARTS, k).opcode != ENTER_FINALLY && At(CODE, STARTS, k).opcode != RESUME_COMPLETION
    {
      InstructionAllowed(k);
      AbruptHasTarget(At(CODE, STARTS, k).opcode);
    }
  }

  lemma AbruptHasTarget(op: Opcode)
    ensures IsAbrupt(op) ==> HasTarget(op)
  {
  }

  lemma ProgramAccepted()
    ensures FullyVerified(CODE, STARTS, 1, POOL) && Accepted(PROGRAM) && FinallyAccepted(CODE, STARTS, TABLE) && Aligned(PROGRAM)
  {
    hide Decode, Prefix, Stack, Verified, HandlersAccepted, EnvironmentsAccepted, TargetsListed, FinallyAccepted, Aligned;
    CodeVerified();
    TableAccepted();
    EnvironmentsValid();
  }

  /** Nothing but the throw happens at the first instruction, and it is not delivered. */
  lemma ThrowStuck()
    ensures Listing(CODE, STARTS) && forall m' :: !Step(PROGRAM, INITIAL, m')
  {
    hide Decode, Prefix, Stack, IsDelivered, RoutesTo;
    CodeListed();
    assert STARTS[0] == 0;
    IndexUnique(CODE, STARTS, 0);
    assert FindHandler(TABLE, 1, 0, Throw) == Some(0);
    DeliveredIff(PROGRAM, INITIAL, Throw, 0);
    UndeliveredStuck(PROGRAM, INITIAL, 0);
  }

  /** The entry protects the first instruction and takes its throw, which nevertheless goes nowhere. */
  lemma ThrowObstructed()
    ensures FullyVerified(CODE, STARTS, 1, POOL) && Accepted(PROGRAM) && FinallyAccepted(CODE, STARTS, TABLE) && Aligned(PROGRAM)
    ensures Listing(CODE, STARTS) && Agrees(PROGRAM, INITIAL) && Raises(PROGRAM, 0, Throw)
    ensures FindHandler(TABLE, |TABLE|, INITIAL.pc, Throw) == Some(0)
    ensures forall m' :: !Step(PROGRAM, INITIAL, m')
  {
    hide Decode, Prefix, Stack, Accepted, FinallyAccepted, Aligned, DepthAt, Step, Agrees;
    CodeListed();
    ProgramAccepted();
    InitialAgrees(PROGRAM);
    assert FindHandler(TABLE, 1, 0, Throw) == Some(0);
    ThrowStuck();
  }
}
