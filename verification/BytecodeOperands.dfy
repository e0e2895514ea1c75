/** What the interpreter does with the operands of each opcode, and which uses verification keeps in range. */
module BytecodeOperands {
  import opened BytecodeEncoding
  import opened BytecodeRegisters
  import opened BytecodeVerifier

  const DIRECT_CALLS: set<Opcode> := {13, 32, 119, 121}
  const RECEIVER_CALLS: set<Opcode> := {30, 120}
  const SUPER_CONSTRUCT: Opcode := 88
  const ATTACH_INSTANCE_FIELDS: Opcode := 109

  /** Opcodes whose first operand is a register the interpreter reads or writes. */
  predicate UsesFirst(op: Opcode) {
    match op
    case 0 | 9 | 39 | 44 | 46 | 70 | 71 | 72 | 73 | 103 | 105 | 135 | 141 | 143 => false
    case _ => true
  }

  /** Opcodes whose second operand is such a register. */
  predicate UsesSecond(op: Opcode) {
    || 3 <= op <= 8 || 28 <= op <= 30 || 35 <= op <= 38 || 47 <= op <= 62 || 77 <= op <= 81 || 94 <= op <= 99
    || 106 <= op <= 109 || 112 <= op <= 121 || 127 <= op <= 132 || 138 <= op <= 140
    || op in {13, 17, 18, 23, 26, 32, 40, 64, 65, 67, 68, 74, 75, 83, 84, 91, 102, 123, 124, 134, 136, 144, 145}
  }

  /** Opcodes whose third operand is such a register. */
  predicate UsesThird(op: Opcode) {
    || 4 <= op <= 8 || 35 <= op <= 37 || 49 <= op <= 62 || 97 <= op <= 99 || 112 <= op <= 118 || 128 <= op <= 132
    || op in {40, 65, 74, 75, 79, 80, 84, 87, 102, 108, 124, 134, 136, 144}
  }

  /** Opcodes that use the register behind their second operand. */
  const USES_AFTER_SECOND: set<Opcode> := {127, 130, 131}

  /**
   * The registers an instruction may read or write when it is executed: its operands, the pair behind one of
   * them, or the window of arguments or field records that its third operand measures.
   */
  ghost predicate Touches(op: Opcode, operands: seq<Word>, r: nat)
    requires |operands| == 3
  {
    var a: nat, b: nat, c: nat := operands[0], operands[1], operands[2];
    || (UsesFirst(op) && r == a)
    || (UsesSecond(op) && r == b)
    || (UsesThird(op) && r == c)
    || (op in USES_AFTER_SECOND && r == b + 1)
    || (op == CREATE_CLASS && r == c + 1)
    || (op in DIRECT_CALLS && b < r <= b + c)
    || (op == SUPER_CONSTRUCT && b < r <= b + c)
    || (op in RECEIVER_CALLS && b < r <= b + 1 + c)
    || (op == ATTACH_INSTANCE_FIELDS && b <= r < b + 4 * c)
  }

  /** A constructor without fields still gets its empty plan through the record base, which nothing checks. */
  predicate Unchecked(op: Opcode, operands: seq<Word>, r: nat)
    requires |operands| == 3
  {
    op == ATTACH_INSTANCE_FIELDS && operands[2] == 0 && r == operands[1] && r != operands[0]
  }

  /** Operands that verification takes for registers although they name a scope entry, a parameter or nothing. */
  predicate Mistaken(op: Opcode, operands: seq<Word>, r: nat)
    requires |operands| == 3
  {
    || (op in {63, 85, SUPER_CONSTRUCT} && r == operands[1])
    || (op in {64, 77, 78, 94, 95} && r == operands[2])
  }

  ghost predicate Demanded(op: Opcode, operands: seq<Word>, r: nat)
    requires |operands| == 3
  {
    (Touches(op, operands, r) && !Unchecked(op, operands, r)) || Mistaken(op, operands, r)
  }

  // How the verifier's roles cover the uses.

  lemma FirstUsed(op: Opcode)
    ensures UsesFirst(op) <==> !VerifiedRole(op).NoRegister?
    ensures !VerifiedRole(op).FirstAndThird?
  {
  }

  lemma SecondUsed(op: Opcode)
    ensures UsesSecond(op) || op in {63, 85, SUPER_CONSTRUCT}
            <==> !VerifiedRole(op).NoRegister? && !VerifiedRole(op).First? && !VerifiedRole(op).ClassPair?
  {
  }

  lemma ThirdUsedLow(op: Opcode)
    requires op < 76
    ensures UsesThird(op) || op in {64, 77, 78, 94, 95}
            <==> VerifiedRole(op).AllThree? || VerifiedRole(op).SpreadReceiver? || VerifiedRole(op).ClassPair?
  {
  }

  lemma ThirdUsedHigh(op: Opcode)
    requires op >= 76
    ensures UsesThird(op) || op in {64, 77, 78, 94, 95}
            <==> VerifiedRole(op).AllThree? || VerifiedRole(op).SpreadReceiver? || VerifiedRole(op).ClassPair?
  {
  }

  lemma ThirdUsed(op: Opcode)
    ensures UsesThird(op) || op in {64, 77, 78, 94, 95}
            <==> VerifiedRole(op).AllThree? || VerifiedRole(op).SpreadReceiver? || VerifiedRole(op).ClassPair?
  {
    hide UsesThird, VerifiedRole;
    if op < 76 {
      ThirdUsedLow(op);
    } else {
      ThirdUsedHigh(op);
    }
  }

  lemma WindowsUsed(op: Opcode)
    ensures op in USES_AFTER_SECOND <==> VerifiedRole(op).SpreadReceiver? || VerifiedRole(op).ValueAndKind?
    ensures op == CREATE_CLASS <==> VerifiedRole(op).ClassPair?
    ensures op in DIRECT_CALLS || op == SUPER_CONSTRUCT <==> VerifiedRole(op).CallWindow?
    ensures op in RECEIVER_CALLS <==> VerifiedRole(op).ReceiverWindow?
    ensures op == ATTACH_INSTANCE_FIELDS <==> VerifiedRole(op).FieldWindow?
  {
  }

  lemma CheckedRegisters(op: Opcode, operands: seq<Word>, count: nat, r: nat)
    requires |operands| == 3 && RegistersVerified(op, operands, count) && Demanded(op, operands, r)
    ensures r < count
  {
    hide UsesFirst, UsesSecond, UsesThird, VerifiedRole;
    FirstUsed(op);
    SecondUsed(op);
    ThirdUsed(op);
    WindowsUsed(op);
    var registers := RoleRegisters(VerifiedRole(op), operands);
    assert |registers| > 0 ==> registers[0] < count;
    assert |registers| > 1 ==> registers[1] < count;
    assert |registers| > 2 ==> registers[2] < count;
    assert |registers| > 3 ==> registers[3] < count;
  }

  lemma DemandedRegisters(op: Opcode, operands: seq<Word>, i: nat)
    requires |operands| == 3 && i < |RoleRegisters(VerifiedRole(op), operands)|
    ensures Demanded(op, operands, RoleRegisters(VerifiedRole(op), operands)[i])
  {
    hide UsesFirst, UsesSecond, UsesThird, VerifiedRole;
    FirstUsed(op);
    SecondUsed(op);
    ThirdUsed(op);
    WindowsUsed(op);
  }

  /** The register checks pass exactly when every demanded register is below the count. */
  lemma RegistersVerifiedIff(op: Opcode, operands: seq<Word>, count: nat)
    requires |operands| == 3
    ensures RegistersVerified(op, operands, count) <==> forall r: nat | Demanded(op, operands, r) :: r < count
  {
    hide Demanded, VerifiedRole, RoleRegisters;
    if RegistersVerified(op, operands, count) {
      forall r: nat | Demanded(op, operands, r) ensures r < count {
        CheckedRegisters(op, operands, count, r);
      }
    }
    if forall r: nat | Demanded(op, operands, r) :: r < count {
      var registers := RoleRegisters(VerifiedRole(op), operands);
      forall i | 0 <= i < |registers| ensures registers[i] < count {
        DemandedRegisters(op, operands, i);
      }
    }
  }

  // ----- Control and environments -----

  /** Opcodes after which the interpreter never goes on to the next instruction of its own accord. */
  const NEVER_CONTINUE: set<Opcode> := {9, 11, 12, 46, 70, 71, 72, 73}

  /** Whether the interpreter may set the program counter to `target` itself. */
  predicate MayJump(i: Instruction, target: nat)
    requires |i.operands| == 3
  {
    (i.opcode == 9 && target == i.operands[0]) || (i.opcode in {10, 24, 25} && target == i.operands[1])
  }

  /** Whether the interpreter routes a break or continue to `target` at environment depth `depth`. */
  predicate BreaksTo(i: Instruction, target: nat, depth: nat)
    requires |i.operands| == 3
  {
    i.opcode in {72, 73} && target == i.operands[0] && depth == i.operands[1]
  }

  /** Environments an instruction opens, counted negative where it closes one. */
  function DepthChange(op: Opcode): int { if op in {103, 141} then 1 else if op in {105, 143} then -1 else 0 }

  /** Opcodes that fail unless an environment of the activation is open. */
  predicate NeedsEnvironment(op: Opcode) { op in {104, 105, 142, 143} }

  /** The verifier's tables say the same. */
  lemma ControlAgrees(i: Instruction, target: nat)
    requires |i.operands| == 3
    ensures i.opcode in NEVER_CONTINUE <==> IsTerminal(i.opcode) || i.opcode == RESUME_COMPLETION
    ensures (i.opcode == JUMP || IsConditional(i.opcode)) && TargetOf(i) == target <==> MayJump(i, target)
    ensures forall depth :: BreaksTo(i, target, depth)
                            <==> IsAbrupt(i.opcode) && TargetOf(i) == target && i.operands[1] == depth
    ensures HasTarget(i.opcode) <==> i.opcode == JUMP || IsConditional(i.opcode) || IsAbrupt(i.opcode)
  {
  }

  // ----- How many operands an opcode has -----

  /** First operands that are targets, names or slot counts. */
  const OTHER_FIRST: set<Opcode> := {9, 39, 44, 72, 73, 103, 141}

  /** Second operands that are immediates, constants, functions, targets, names, counts, depths, slots or flags. */
  const OTHER_SECOND: set<Opcode> := {
    1, 2, 10, 14, 15, 16, 24, 25, 41, 42, 43, 44, 45, 63, 72, 73, 76, 82, 85, 87, 88, 93, 101, 104, 111, 122, 137, 141, 142}

  /** Third operands that are names, slots, argument or field counts, suspend points or flags. */
  predicate OtherThird(op: Opcode) {
    17 <= op <= 18 || 28 <= op <= 30 || 42 <= op <= 43 || 77 <= op <= 78 || 94 <= op <= 95 || 119 <= op <= 123
    || op in {13, 32, 64, 81, 88, 91, 107, 109, 127, 140}
  }

  /** Whether the interpreter has a use for operand `n`, counting from zero. */
  predicate HasUse(op: Opcode, n: nat) {
    if n == 0 then UsesFirst(op) || op in OTHER_FIRST
    else if n == 1 then UsesSecond(op) || op in OTHER_SECOND
    else n == 2 && (UsesThird(op) || OtherThird(op))
  }

  lemma FirstOperandUsed(op: Opcode)
    ensures OperandCount(op) >= 1 <==> HasUse(op, 0)
  {
  }

  lemma SecondOperandUsed(op: Opcode)
    ensures OperandCount(op) >= 2 <==> HasUse(op, 1)
  {
  }

  lemma ThirdOperandUsedLow(op: Opcode)
    requires op < 76
    ensures OperandCount(op) >= 3 <==> HasUse(op, 2)
  {
  }

  lemma ThirdOperandUsedHigh(op: Opcode)
    requires op >= 76
    ensures OperandCount(op) >= 3 <==> HasUse(op, 2)
  {
  }

  lemma ThirdOperandUsed(op: Opcode)
    ensures OperandCount(op) >= 3 <==> HasUse(op, 2)
  {
    hide OperandCount, HasUse;
    if op < 76 {
      ThirdOperandUsedLow(op);
    } else {
      ThirdOperandUsedHigh(op);
    }
  }

  /** The encoding carries exactly the operands the interpreter uses. */
  lemma OperandsAreUsed(op: Opcode, n: nat)
    ensures n < OperandCount(op) <==> HasUse(op, n)
  {
    hide OperandCount, UsesFirst, UsesSecond, UsesThird;
    FirstOperandUsed(op);
    SecondOperandUsed(op);
    ThirdOperandUsed(op);
  }

  // ----- Operands that are no registers -----

  /** Whether the interpreter looks `n` up among the scope names of the function. */
  predicate NamesScope(op: Opcode, operands: seq<Word>, n: nat)
    requires |operands| == 3
  {
    || (op in {39, 44} && n == operands[0])
    || (op in {15, 16, 41, 45, 63, 76, 101, 111} && n == operands[1])
    || (op in {28, 29, 64, 77, 78, 91, 94, 95, 107, 123} && n == operands[2])
  }

  const TYPEOF_SCOPE: Opcode := 63
  const DELETE_BY_ID: Opcode := 64
  const SET_FUNCTION_NAME: Opcode := 76
  const INITIALIZE_ENVIRONMENT: Opcode := 122

  /** Opcodes whose scope name is never compared with the number of scope names. */
  const UNCHECKED_NAMES: set<Opcode> := {TYPEOF_SCOPE, DELETE_BY_ID, SET_FUNCTION_NAME}

  /** Whether the interpreter uses `n` as a slot of an environment. */
  predicate NamesSlot(op: Opcode, operands: seq<Word>, n: nat)
    requires |operands| == 3
  {
    (op in {42, 43, INITIALIZE_ENVIRONMENT} && n == operands[2]) || (op in {104, 142} && n == operands[1])
  }

  /** An environment is entered with at least one slot, and with no more than any environment may have. */
  predicate EntersSlots(op: Opcode, operands: seq<Word>, slots: nat)
    requires |operands| == 3
  {
    op in {103, 141} ==> 0 < operands[0] <= slots
  }

  /** A constant is loaded only if there is one; a template object only from a template site. */
  predicate LoadsConstant(op: Opcode, operands: seq<Word>, constants: seq<bool>)
    requires |operands| == 3
  {
    op in {2, 137} ==> operands[1] < |constants| && (op == 137 ==> constants[operands[1]])
  }

  /** What the interpreter takes for true and false is zero or one. */
  predicate FlagsAreBits(op: Opcode, operands: seq<Word>)
    requires |operands| == 3
  {
    && (op in {44, 141} ==> operands[1] == 0 || operands[1] == 1)
    && (op in {81, 140} ==> operands[2] == 0 || operands[2] == 1)
  }

  lemma ScopeNamesIff(op: Opcode, operands: seq<Word>, count: nat)
    requires |operands| == 3
    ensures (ScopeNameOf(op, operands).Some? ==> ScopeNameOf(op, operands).value < count)
            <==> forall n: nat | NamesScope(op, operands, n) && op !in UNCHECKED_NAMES :: n < count
  {
    if ScopeNameOf(op, operands).Some? {
      assert NamesScope(op, operands, ScopeNameOf(op, operands).value);
    }
  }

  lemma SlotsIff(op: Opcode, operands: seq<Word>, slots: nat)
    requires |operands| == 3
    ensures EnvironmentVerified(op, operands, slots)
            <==> EntersSlots(op, operands, slots)
                 && forall n: nat | NamesSlot(op, operands, n) && op != INITIALIZE_ENVIRONMENT :: n < slots
  {
    if op in {42, 43} {
      assert NamesSlot(op, operands, operands[2]);
    }
    if op in {104, 142} {
      assert NamesSlot(op, operands, operands[1]);
    }
  }

  /** The other operand checks pass exactly when all names, slots, constants, functions and flags but those of four
      opcodes are in range. */
  lemma OperandsVerifiedIff(op: Opcode, operands: seq<Word>, pool: Pool)
    requires |operands| == 3
    ensures OperandsVerified(op, operands, pool)
            <==> && LoadsConstant(op, operands, pool.constants) && EntersSlots(op, operands, pool.environmentSlots)
                 && FlagsAreBits(op, operands) && (op in {14, 87, 93} ==> operands[1] < pool.functions)
                 && (forall n: nat | NamesScope(op, operands, n) && op !in UNCHECKED_NAMES :: n < pool.scopeNames)
                 && (forall n: nat | NamesSlot(op, operands, n) && op != INITIALIZE_ENVIRONMENT :: n < pool.environmentSlots)
  {
    hide NamesScope, NamesSlot, ScopeNameOf, EnvironmentVerified, EntersSlots;
    ScopeNamesIff(op, operands, pool.scopeNames);
    SlotsIff(op, operands, pool.environmentSlots);
  }

  // ----- Whole functions -----

  /** No instruction uses an operand that verification leaves unchecked and that is out of range. */
  ghost predicate OperandsInRange(i: Instruction, registerCount: nat, pool: Pool)
    requires |i.operands| == 3
  {
    && (forall r: nat | Touches(i.opcode, i.operands, r) :: r < registerCount)
    && (forall n: nat | NamesScope(i.opcode, i.operands, n) :: n < pool.scopeNames)
    && (forall n: nat | NamesSlot(i.opcode, i.operands, n) :: n < pool.environmentSlots)
  }

  /** The five opcodes with an operand left unchecked, and what it would have to be compared with. */
  predicate LeftUnchecked(i: Instruction, registerCount: nat, pool: Pool)
    requires |i.operands| == 3
  {
    || (i.opcode == ATTACH_INSTANCE_FIELDS && i.operands[2] == 0 && i.operands[1] >= registerCount)
    || ((i.opcode == TYPEOF_SCOPE || i.opcode == SET_FUNCTION_NAME) && i.operands[1] >= pool.scopeNames)
    || (i.opcode == DELETE_BY_ID && i.operands[2] >= pool.scopeNames)
    || (i.opcode == INITIALIZE_ENVIRONMENT && i.operands[2] >= pool.environmentSlots)
  }

  /** A verified instruction keeps every operand in range exactly when it is none of those five cases. */
  lemma OperandsInRangeIff(i: Instruction, registerCount: nat, pool: Pool)
    requires |i.operands| == 3
    requires RegistersVerified(i.opcode, i.operands, registerCount) && OperandsVerified(i.opcode, i.operands, pool)
    ensures OperandsInRange(i, registerCount, pool) <==> !LeftUnchecked(i, registerCount, pool)
  {
    hide UsesFirst, UsesSecond, UsesThird, RegistersVerified, OperandsVerified;
    RegistersVerifiedIff(i.opcode, i.operands, registerCount);
    OperandsVerifiedIff(i.opcode, i.operands, pool);
    UncheckedUses(i);
    assert forall r: nat | Touches(i.opcode, i.operands, r) && !Unchecked(i.opcode, i.operands, r) :: Demanded(i.opcode, i.operands, r);
    if i.opcode == ATTACH_INSTANCE_FIELDS {
      assert Demanded(i.opcode, i.operands, i.operands[0]);
    }
  }

  lemma UncheckedUses(i: Instruction)
    requires |i.operands| == 3
    ensures i.opcode == ATTACH_INSTANCE_FIELDS ==> UsesFirst(i.opcode) && Touches(i.opcode, i.operands, i.operands[1])
    ensures i.opcode == TYPEOF_SCOPE || i.opcode == SET_FUNCTION_NAME ==> NamesScope(i.opcode, i.operands, i.operands[1])
    ensures i.opcode == DELETE_BY_ID ==> NamesScope(i.opcode, i.operands, i.operands[2])
    ensures i.opcode == INITIALIZE_ENVIRONMENT ==> NamesSlot(i.opcode, i.operands, i.operands[2])
  {
  }

  /** A verified function keeps all operands in range exactly when none of its instructions is one of the five cases. */
  lemma FunctionInRangeIff(words: seq<Word>, starts: seq<nat>, registerCount: nat, pool: Pool)
    requires FullyVerified(words, starts, registerCount, pool)
    ensures (forall k | 0 <= k < |starts| :: OperandsInRange(At(words, starts, k), registerCount, pool))
            <==> (forall k | 0 <= k < |starts| :: !LeftUnchecked(At(words, starts, k), registerCount, pool))
  {
    hide Decode, Prefix, OperandsInRange, LeftUnchecked, RegistersVerified, OperandsVerified;
    forall k | 0 <= k < |starts|
      ensures OperandsInRange(At(words, starts, k), registerCount, pool) <==> !LeftUnchecked(At(words, starts, k), registerCount, pool)
    {
      assert InstructionVerified(At(words, starts, k), starts, registerCount);
      OperandsInRangeIff(At(words, starts, k), registerCount, pool);
    }
  }

  /** What the verifier demands of one instruction, said of what the interpreter does with it. */
  ghost predicate InstructionSound(i: Instruction, starts: seq<nat>, registerCount: nat, pool: Pool)
    requires |i.operands| == 3
  {
    && (forall r: nat | Demanded(i.opcode, i.operands, r) :: r < registerCount)
    && (forall target: nat | MayJump(i, target) :: target in starts)
    && (forall target: nat, depth: nat | BreaksTo(i, target, depth) :: target in starts)
    && LoadsConstant(i.opcode, i.operands, pool.constants) && EntersSlots(i.opcode, i.operands, pool.environmentSlots)
    && FlagsAreBits(i.opcode, i.operands) && (i.opcode in {14, 87, 93} ==> i.operands[1] < pool.functions)
    && (forall n: nat | NamesScope(i.opcode, i.operands, n) && i.opcode !in UNCHECKED_NAMES :: n < pool.scopeNames)
    && (forall n: nat | NamesSlot(i.opcode, i.operands, n) && i.opcode != INITIALIZE_ENVIRONMENT :: n < pool.environmentSlots)
  }

  lemma TargetsIff(i: Instruction, starts: seq<nat>)
    requires |i.operands| == 3
    ensures (HasTarget(i.opcode) ==> TargetOf(i) in starts)
            <==> && (forall target: nat | MayJump(i, target) :: target in starts)
                 && (forall target: nat, depth: nat | BreaksTo(i, target, depth) :: target in starts)
  {
    if HasTarget(i.opcode) {
      assert MayJump(i, TargetOf(i)) || BreaksTo(i, TargetOf(i), i.operands[1]);
    }
  }

  lemma InstructionSoundIff(i: Instruction, starts: seq<nat>, registerCount: nat, pool: Pool)
    requires |i.operands| == 3
    ensures InstructionVerified(i, starts, registerCount) && OperandsVerified(i.opcode, i.operands, pool)
            <==> InstructionSound(i, starts, registerCount, pool)
  {
    hide RegistersVerified, OperandsVerified, Demanded, MayJump, BreaksTo, NamesScope, NamesSlot, LoadsConstant, EntersSlots,
      FlagsAreBits;
    RegistersVerifiedIff(i.opcode, i.operands, registerCount);
    TargetsIff(i, starts);
    OperandsVerifiedIff(i.opcode, i.operands, pool);
  }

  /** The streams `verify` accepts: they decode to the end, the last instruction is never passed, and each one is sound. */
  lemma FullyVerifiedIff(words: seq<Word>, starts: seq<nat>, registerCount: nat, pool: Pool)
    ensures FullyVerified(words, starts, registerCount, pool)
            <==> && Listing(words, starts) && words != [] && |words| < 0x1_0000_0000
                 && (starts != [] ==> At(words, starts, |starts| - 1).opcode in NEVER_CONTINUE - {RESUME_COMPLETION})
                 && forall k | 0 <= k < |starts| :: InstructionSound(At(words, starts, k), starts, registerCount, pool)
  {
    hide Decode, Adjacent, InstructionSound, InstructionVerified, OperandsVerified;
    if Listing(words, starts) {
      EmptyListing(words, starts);
      forall k | 0 <= k < |starts|
        ensures InstructionVerified(At(words, starts, k), starts, registerCount)
                && OperandsVerified(At(words, starts, k).opcode, At(words, starts, k).operands, pool)
                <==> InstructionSound(At(words, starts, k), starts, registerCount, pool)
      {
        InstructionSoundIff(At(words, starts, k), starts, registerCount, pool);
      }
      if starts != [] {
        ControlAgrees(At(words, starts, |starts| - 1), 0);
      }
    }
  }

  lemma EmptyListing(words: seq<Word>, starts: seq<nat>)
    requires Listing(words, starts)
    ensures starts == [] <==> words == []
  {
    if starts != [] {
      assert Adjacent(words, starts[0], Following(starts, |words|, 0));
    }
  }
}
