/** Structural verification: instruction boundaries, terminal instruction, registers and jump targets. */
module BytecodeVerifier {
  import opened Options
  import opened BytecodeEncoding
  import opened BytecodeCodec
  import opened BytecodeRegisters

  predicate IsTerminal(op: Opcode) {
    op in {JUMP, RETURN, RETURN_UNDEFINED, THROW, ENTER_FINALLY, BREAK_THROUGH_FINALLY, CONTINUE_THROUGH_FINALLY}
  }

  predicate IsAbrupt(op: Opcode) { op == BREAK_THROUGH_FINALLY || op == CONTINUE_THROUGH_FINALLY }

  predicate IsConditional(op: Opcode) { op == JUMP_IF_FALSE || op == JUMP_IF_TRUE || op == JUMP_IF_NOT_NULLISH }

  /** The operand that is a jump target, if any. */
  predicate HasTarget(op: Opcode) { op == JUMP || IsAbrupt(op) || IsConditional(op) }

  function TargetOf(i: Instruction): nat
    requires |i.operands| == 3 && HasTarget(i.opcode)
  {
    if IsConditional(i.opcode) then i.operands[1] else i.operands[0]
  }

  /** An instruction decodes at `here` and ends at `there`. */
  ghost predicate Adjacent(words: seq<Word>, here: nat, there: nat) {
    here < |words| && Decode(words, here).Ok? && there == here + Decode(words, here).instruction.length
  }

  lemma AdjacentAhead(words: seq<Word>, here: nat, there: nat)
    requires Adjacent(words, here, there)
    ensures here < there <= |words|
  {
  }

  ghost function Following(starts: seq<nat>, next: nat, k: nat): nat
    requires k < |starts|
  {
    if k + 1 < |starts| then starts[k + 1] else next
  }

  /** `starts` lists the boundaries met by decoding linearly from zero up to `next`. */
  ghost predicate Prefix(words: seq<Word>, starts: seq<nat>, next: nat) {
    && (starts == [] ==> next == 0)
    && (starts != [] ==> starts[0] == 0)
    && forall k {:trigger Following(starts, next, k)} | 0 <= k < |starts| :: Adjacent(words, starts[k], Following(starts, next, k))
  }

  ghost predicate Listing(words: seq<Word>, starts: seq<nat>) { Prefix(words, starts, |words|) }

  /** Instruction `k` of a listing. */
  ghost function At(words: seq<Word>, starts: seq<nat>, k: nat): (i: Instruction)
    requires Listing(words, starts) && k < |starts|
    ensures |i.operands| == 3
  {
    assert Adjacent(words, starts[k], Following(starts, |words|, k));
    Decode(words, starts[k]).instruction
  }

  lemma LastStartBefore(words: seq<Word>, starts: seq<nat>, next: nat, k: nat)
    requires Prefix(words, starts, next) && k < |starts|
    ensures starts[k] < next <= |words|
    decreases |starts| - k
  {
    hide Adjacent;
    AdjacentAhead(words, starts[k], Following(starts, next, k));
    if k + 1 < |starts| {
      LastStartBefore(words, starts, next, k + 1);
    }
  }

  lemma StartsIncrease(words: seq<Word>, starts: seq<nat>, next: nat, j: nat, k: nat)
    requires Prefix(words, starts, next) && j < k < |starts|
    ensures starts[j] < starts[k]
    decreases k - j
  {
    hide Adjacent;
    AdjacentAhead(words, starts[j], Following(starts, next, j));
    if j + 1 < k {
      StartsIncrease(words, starts, next, j + 1, k);
    }
  }

  /** Linear decoding is deterministic: any listing extends any prefix. */
  lemma {:induction false} PrefixOfListing(words: seq<Word>, starts: seq<nat>, next: nat, listing: seq<nat>, k: nat)
    requires Prefix(words, starts, next) && Listing(words, listing) && k <= |starts|
    requires next < |words| || k < |starts|
    requires words != []
    ensures k < |listing| && listing[k] == if k < |starts| then starts[k] else next
    decreases k
  {
    hide Adjacent, Decode;
    if k > 0 {
      PrefixOfListing(words, starts, next, listing, k - 1);
      AdjacentUnique(words, starts[k - 1], Following(starts, next, k - 1), Following(listing, |words|, k - 1));
      if k < |starts| {
        LastStartBefore(words, starts, next, k);
      }
    }
  }

  lemma AdjacentUnique(words: seq<Word>, here: nat, a: nat, b: nat)
    requires Adjacent(words, here, a) && Adjacent(words, here, b)
    ensures a == b
  {
  }

  /** A stream has at most one listing. */
  lemma SameListing(words: seq<Word>, a: seq<nat>, b: seq<nat>)
    requires Listing(words, a) && Listing(words, b)
    ensures a == b
  {
    ListingNotLonger(words, a, b);
    ListingNotLonger(words, b, a);
  }

  lemma ListingNotLonger(words: seq<Word>, a: seq<nat>, b: seq<nat>)
    requires Listing(words, a) && Listing(words, b)
    ensures |a| <= |b| && a == b[..|a|]
  {
    hide Adjacent, Decode;
    if a != [] {
      LastStartBefore(words, a, |words|, 0);
      PrefixOfListing(words, a, |words|, b, |a| - 1);
    }
    forall k | 0 <= k < |a| ensures b[k] == a[k] {
      PrefixOfListing(words, a, |words|, b, k);
    }
  }

  /** What pass two demands of one instruction. */
  ghost predicate InstructionVerified(i: Instruction, starts: seq<nat>, registerCount: nat)
    requires |i.operands| == 3
  {
    RegistersVerified(i.opcode, i.operands, registerCount) && (HasTarget(i.opcode) ==> TargetOf(i) in starts)
  }

  /** What `verify` promises about the words it accepts. */
  ghost predicate Verified(words: seq<Word>, starts: seq<nat>, registerCount: nat) {
    && Listing(words, starts) && starts != []
    && IsTerminal(At(words, starts, |starts| - 1).opcode)
    && forall k | 0 <= k < |starts| :: InstructionVerified(At(words, starts, k), starts, registerCount)
  }

  // ----- Operands that are no registers -----

  const MAX_CODE_WORDS: nat := 0xffff_ffff

  /** What the operands of a function may name: `constants` tells of each constant whether it is a template site. */
  datatype Pool = Pool(constants: seq<bool>, scopeNames: nat, functions: nat, environmentSlots: nat)

  function ScopeNameOf(op: Opcode, operands: seq<Word>): Option<nat>
    requires |operands| == 3
  {
    match op
    case 39 | 44 => Some(operands[0])
    case 15 | 16 | 41 | 45 | 101 | 111 => Some(operands[1])
    case 28 | 29 | 77 | 78 | 91 | 94 | 95 | 107 | 123 => Some(operands[2])
    case _ => None
  }

  /** The operand that must be zero or one. */
  function FlagOf(op: Opcode, operands: seq<Word>): Option<nat>
    requires |operands| == 3
  {
    match op
    case 44 | 141 => Some(operands[1])
    case 81 | 140 => Some(operands[2])
    case _ => None
  }

  predicate EnvironmentVerified(op: Opcode, operands: seq<Word>, slots: nat)
    requires |operands| == 3
  {
    match op
    case 103 | 141 => 0 < operands[0] <= slots
    case 104 | 142 => operands[1] < slots
    case 42 | 43 => operands[2] < slots
    case _ => true
  }

  predicate ConstantVerified(op: Opcode, operands: seq<Word>, constants: seq<bool>)
    requires |operands| == 3
  {
    match op
    case 2 => operands[1] < |constants|
    case 137 => operands[1] < |constants| && constants[operands[1]]
    case _ => true
  }

  predicate OperandsVerified(op: Opcode, operands: seq<Word>, pool: Pool)
    requires |operands| == 3
  {
    && ConstantVerified(op, operands, pool.constants) && EnvironmentVerified(op, operands, pool.environmentSlots)
    && (ScopeNameOf(op, operands).Some? ==> ScopeNameOf(op, operands).value < pool.scopeNames)
    && (FlagOf(op, operands).Some? ==> FlagOf(op, operands).value <= 1)
    && (op in {14, 87, 93} ==> operands[1] < pool.functions)
  }

  /** Everything `verify` checks. */
  ghost predicate FullyVerified(words: seq<Word>, starts: seq<nat>, registerCount: nat, pool: Pool) {
    && Verified(words, starts, registerCount) && |words| <= MAX_CODE_WORDS
    && forall k | 0 <= k < |starts| :: OperandsVerified(At(words, starts, k).opcode, At(words, starts, k).operands, pool)
  }

  ghost predicate MarksStarts(bits: seq<bool>, starts: seq<nat>) {
    forall o | 0 <= o < |bits| :: bits[o] <==> o in starts
  }

  method CheckRegisters(registers: seq<nat>, count: nat) returns (ok: bool)
    ensures ok <==> AllBelowCount(registers, count)
  {
    for i := 0 to |registers|
      invariant forall j | 0 <= j < i :: registers[j] < count
    {
      if registers[i] >= count { return false; }
    }
    return true;
  }

  method VerifyInstruction(i: Instruction, bits: seq<bool>, ghost starts: seq<nat>, registerCount: nat) returns (ok: bool)
    requires |i.operands| == 3 && MarksStarts(bits, starts) && forall s | s in starts :: s < |bits|
    ensures ok <==> InstructionVerified(i, starts, registerCount)
  {
    hide VerifiedRole, RoleRegisters;
    ok := CheckRegisters(RoleRegisters(VerifiedRole(i.opcode), i.operands), registerCount);
    if ok && HasTarget(i.opcode) {
      var target := TargetOf(i);
      ok := target < |bits| && bits[target];
    }
  }

  /** Pass one: decodes linearly and records every boundary. */
  method FindStarts(words: seq<Word>) returns (ok: bool, starts: seq<nat>, bits: seq<bool>, instructions: seq<Instruction>)
    ensures ok ==> Listing(words, starts) && |bits| == |words| && MarksStarts(bits, starts)
    ensures ok ==> |instructions| == |starts| && forall k | 0 <= k < |starts| :: Decode(words, starts[k]) == Ok(instructions[k])
    ensures !ok ==> forall listing :: !Listing(words, listing)
  {
    hide Decode, Prefix;
    bits, starts, instructions := seq(|words|, _ => false), [], [];
    var offset := 0;
    EmptyPrefix(words);
    while offset < |words|
      invariant offset <= |words| && Prefix(words, starts, offset) && |bits| == |words| && MarksStarts(bits, starts)
      invariant |instructions| == |starts|
      invariant forall k | 0 <= k < |starts| :: Decode(words, starts[k]) == Ok(instructions[k])
      decreases |words| - offset
    {
      var decoded := DecodeInstruction(words, offset);
      if !decoded.Ok? {
        forall listing ensures !Listing(words, listing) {
          UndecodableRefused(words, starts, offset, listing);
        }
        return false, starts, bits, instructions;
      }
      PrefixExtends(words, starts, offset);
      starts, bits := starts + [offset], bits[offset := true];
      instructions := instructions + [decoded.instruction];
      offset := offset + decoded.instruction.length;
    }
    return true, starts, bits, instructions;
  }

  /** Two passes: find every boundary, then check every instruction against them. */
  method Verify(words: seq<Word>, registerCount: nat, pool: Pool) returns (ok: bool, starts: seq<nat>, bits: seq<bool>)
    ensures ok ==> FullyVerified(words, starts, registerCount, pool) && |bits| == |words| && MarksStarts(bits, starts)
    ensures !ok ==> forall listing :: !FullyVerified(words, listing, registerCount, pool)
  {
    hide Decode, InstructionVerified, OperandsVerified, Prefix;
    if |words| > MAX_CODE_WORDS { return false, [], []; }
    var instructions;
    ok, starts, bits, instructions := FindStarts(words);
    if !ok { return; }
    forall listing | FullyVerified(words, listing, registerCount, pool) ensures listing == starts {
      SameListing(words, listing, starts);
    }
    if starts == [] || !IsTerminal(instructions[|instructions| - 1].opcode) {
      return false, starts, bits;
    }
    StartsInside(words, starts);
    for k := 0 to |starts|
      invariant forall j | 0 <= j < k ::
        && InstructionVerified(At(words, starts, j), starts, registerCount)
        && OperandsVerified(At(words, starts, j).opcode, At(words, starts, j).operands, pool)
    {
      assert instructions[k] == At(words, starts, k);
      var valid := VerifyInstruction(instructions[k], bits, starts, registerCount);
      if !valid || !OperandsVerified(instructions[k].opcode, instructions[k].operands, pool) {
        return false, starts, bits;
      }
    }
  }

  lemma EmptyPrefix(words: seq<Word>)
    ensures Prefix(words, [], 0)
  {
  }

  lemma StartsInside(words: seq<Word>, starts: seq<nat>)
    requires Listing(words, starts)
    ensures forall s | s in starts :: s < |words|
  {
    forall s | s in starts ensures s < |words| {
      var k :| 0 <= k < |starts| && starts[k] == s;
      LastStartBefore(words, starts, |words|, k);
    }
  }

  lemma PrefixExtends(words: seq<Word>, starts: seq<nat>, next: nat)
    requires Prefix(words, starts, next) && next < |words| && Decode(words, next).Ok?
    ensures Prefix(words, starts + [next], next + Decode(words, next).instruction.length)
  {
    var longer, end := starts + [next], next + Decode(words, next).instruction.length;
    forall k | 0 <= k < |longer| ensures Adjacent(words, longer[k], Following(longer, end, k)) {
      if k < |starts| {
        assert Adjacent(words, starts[k], Following(starts, next, k));
      }
    }
  }

  /** A listed stream decodes at every boundary a prefix reaches. */
  lemma ListingDecodes(words: seq<Word>, starts: seq<nat>, offset: nat, listing: seq<nat>)
    requires Prefix(words, starts, offset) && offset < |words| && Listing(words, listing)
    ensures Decode(words, offset).Ok?
  {
    PrefixOfListing(words, starts, offset, listing, |starts|);
    assert Adjacent(words, listing[|starts|], Following(listing, |words|, |starts|));
  }

  lemma UndecodableRefused(words: seq<Word>, starts: seq<nat>, offset: nat, listing: seq<nat>)
    requires Prefix(words, starts, offset) && offset < |words| && !Decode(words, offset).Ok?
    ensures !Listing(words, listing)
  {
    hide Prefix, Decode;
    if Listing(words, listing) {
      ListingDecodes(words, starts, offset, listing);
    }
  }
}
