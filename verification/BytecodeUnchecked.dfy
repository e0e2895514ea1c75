/** A verified function of one register and no names or slots, five of whose instructions use others all the same. */
module BytecodeUnchecked {
  import opened BytecodeEncoding
  import opened BytecodeRegisters
  import opened BytecodeVerifier
  import opened BytecodeOperands

  /** AttachInstanceFields 0 9 0; TypeofScope 0 0; DeleteById 0 0 0; SetFunctionName 0 7; InitializeEnvironment 0 0 3;
      ReturnUndefined. */
  const CODE: seq<Word> := [237, 0, 9, 0, 63, 192, 0, 0, 0, 204, 0, 7, 250, 0, 0, 3, 46]
  const STARTS: seq<nat> := [0, 4, 5, 9, 12, 16]
  const POOL := Pool([], 0, 0, 0)

  lemma AttachDecodes()
    ensures Decode(CODE, 0) == Ok(Instruction(109, Wide, [0, 9, 0], 4))
  {
    assert CODE[1..4] == [0, 9, 0];
  }

  lemma TypeofDecodes()
    ensures Decode(CODE, 4) == Ok(Instruction(63, Compact, [0, 0, 0], 1))
  {
    assert CompactOperands(63, 2) == [0, 0];
  }

  lemma DeleteDecodes()
    ensures Decode(CODE, 5) == Ok(Instruction(64, Wide, [0, 0, 0], 4))
  {
    assert CODE[6..9] == [0, 0, 0];
  }

  lemma NameDecodes()
    ensures Decode(CODE, 9) == Ok(Instruction(76, Wide, [0, 7, 0], 3))
  {
    assert CODE[10..12] == [0, 7];
  }

  lemma InitializeDecodes()
    ensures Decode(CODE, 12) == Ok(Instruction(122, Wide, [0, 0, 3], 4))
  {
    assert CODE[13..16] == [0, 0, 3];
  }

  lemma ReturnDecodes()
    ensures Decode(CODE, 16) == Ok(Instruction(46, Compact, [0, 0, 0], 1))
  {
  }

  /** The five instructions and the return. */
  const INSTRUCTIONS := [
    Instruction(109, Wide, [0, 9, 0], 4), Instruction(63, Compact, [0, 0, 0], 1), Instruction(64, Wide, [0, 0, 0], 4),
    Instruction(76, Wide, [0, 7, 0], 3), Instruction(122, Wide, [0, 0, 3], 4), Instruction(46, Compact, [0, 0, 0], 1)]

  lemma CodeListed()
    ensures Listing(CODE, STARTS) && forall k | 0 <= k < |STARTS| :: At(CODE, STARTS, k) == INSTRUCTIONS[k]
  {
    hide Decode;
    AttachDecodes();
    TypeofDecodes();
    DeleteDecodes();
    NameDecodes();
    InitializeDecodes();
    ReturnDecodes();
    assert Adjacent(CODE, STARTS[0], 4) && Adjacent(CODE, STARTS[1], 5) && Adjacent(CODE, STARTS[2], 9);
    assert Adjacent(CODE, STARTS[3], 12) && Adjacent(CODE, STARTS[4], 16) && Adjacent(CODE, STARTS[5], 17);
  }

  lemma InstructionChecked(k: nat)
    requires k < |STARTS|
    ensures InstructionVerified(INSTRUCTIONS[k], STARTS, 1)
    ensures OperandsVerified(INSTRUCTIONS[k].opcode, INSTRUCTIONS[k].operands, POOL)
  {
  }

  /** Verification accepts it, and every instruction but the last uses an operand that is out of range. */
  lemma UncheckedOperands()
    ensures FullyVerified(CODE, STARTS, 1, POOL)
    ensures forall k | 0 <= k < 5 :: LeftUnchecked(At(CODE, STARTS, k), 1, POOL) && !OperandsInRange(At(CODE, STARTS, k), 1, POOL)
  {
    hide Decode, Prefix, InstructionVerified, OperandsVerified, OperandsInRange, At;
    CodeListed();
    forall k | 0 <= k < |STARTS|
      ensures InstructionVerified(At(CODE, STARTS, k), STARTS, 1)
      ensures OperandsVerified(At(CODE, STARTS, k).opcode, At(CODE, STARTS, k).operands, POOL)
    {
      InstructionChecked(k);
    }
    forall k | 0 <= k < 5
      ensures LeftUnchecked(At(CODE, STARTS, k), 1, POOL) && !OperandsInRange(At(CODE, STARTS, k), 1, POOL)
    {
      InstructionUnchecked(k);
    }
  }

  lemma InstructionUnchecked(k: nat)
    requires k < 5
    ensures LeftUnchecked(INSTRUCTIONS[k], 1, POOL) && !OperandsInRange(INSTRUCTIONS[k], 1, POOL)
  {
    hide OperandsInRange, RegistersVerified;
    InstructionChecked(k);
    OperandsInRangeIff(INSTRUCTIONS[k], 1, POOL);
  }
}
