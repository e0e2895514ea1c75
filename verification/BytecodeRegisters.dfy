/** Which operands are registers: the builder's table, the verifier's table, and how they differ. */
module BytecodeRegisters {
  import opened BytecodeEncoding

  /** How an opcode uses its three operands as registers. */
  datatype Role =
    | NoRegister
    | First
    | FirstTwo
    | AllThree
    | FirstAndThird
    | CallWindow       // callee, then operand 2 arguments after it
    | ReceiverWindow   // receiver, callee, then operand 2 arguments
    | SpreadReceiver   // receiver and callee adjacent, plus an argument array
    | ValueAndKind     // destination pair
    | ClassPair        // superclass and prototype adjacent
    | FieldWindow      // four registers per field

  /** The verifier's classification. */
  function VerifiedRole(op: Opcode): Role {
    match op
    case 0 | 9 | 39 | 44 | 46 | 70 | 71 | 72 | 73 | 103 | 105 | 135 | 141 | 143 => NoRegister
    case 1 | 2 | 10 | 11 | 12 | 14 | 15 | 16 | 19 | 20 | 21 | 22 | 24 | 25 | 27 | 31 | 33 | 34 | 41 | 42 | 43 | 45 |
      66 | 69 | 76 | 82 | 86 | 89 | 90 | 92 | 93 | 100 | 101 | 104 | 110 | 111 | 122 | 125 | 126 | 133 | 137 | 142
      => First
    case 3 | 17 | 18 | 23 | 26 | 28 | 29 | 38 | 47 | 48 | 63 | 67 | 68 | 81 | 83 | 85 | 91 | 96 | 106 | 107 | 123 |
      138 | 139 | 140 | 145 => FirstTwo
    case 13 | 32 | 88 | 119 | 121 => CallWindow
    case 30 | 120 => ReceiverWindow
    case 130 | 131 => SpreadReceiver
    case 127 => ValueAndKind
    case 87 => ClassPair
    case 109 => FieldWindow
    case _ => AllThree
  }

  /** The builder's classification. */
  function NotedRole(op: Opcode): Role {
    match op
    case 0 | 9 | 39 | 44 | 46 | 70 | 71 | 72 | 73 | 103 | 105 | 135 | 141 | 143 => NoRegister
    case 1 | 2 | 10 | 11 | 12 | 14 | 15 | 16 | 19 | 20 | 21 | 22 | 24 | 25 | 27 | 31 | 33 | 34 | 41 | 42 | 43 | 45 |
      66 | 69 | 76 | 86 | 89 | 90 | 92 | 93 | 100 | 101 | 104 | 110 | 111 | 122 | 125 | 126 | 133 | 137 | 142 =>
      First
    case 3 | 17 | 18 | 23 | 26 | 28 | 29 | 38 | 47 | 48 | 63 | 67 | 68 | 81 | 82 | 83 | 85 | 91 | 94 | 95 | 96 | 106
      | 107 | 123 | 138 | 139 | 140 | 145 => FirstTwo
    case 13 | 32 | 88 | 119 | 121 => CallWindow
    case 30 | 120 => ReceiverWindow
    case 127 => ValueAndKind
    case 87 => FirstAndThird
    case 109 => FieldWindow
    case _ => AllThree
  }

  /** The registers a role names; of a window, its last register. Unbounded: a sum past 32 bits is past every count. */
  function RoleRegisters(role: Role, operands: seq<Word>): seq<nat>
    requires |operands| == 3
  {
    var a: nat, b: nat, c: nat := operands[0], operands[1], operands[2];
    match role
    case NoRegister => []
    case First => [a]
    case FirstTwo => [a, b]
    case AllThree => [a, b, c]
    case FirstAndThird => [a, c]
    case CallWindow => if c == 0 then [a, b] else [a, b, b + c]
    case ReceiverWindow => [a, b, b + 1 + c]
    case SpreadReceiver => [a, b, c, b + 1]
    case ValueAndKind => [a, b, b + 1]
    case ClassPair => [a, c, c + 1]
    case FieldWindow => if c == 0 then [a] else [a, b + 4 * c - 1]
  }

  ghost predicate AllBelowCount(registers: seq<nat>, count: nat) {
    forall i | 0 <= i < |registers| :: registers[i] < count
  }

  ghost predicate RegistersVerified(op: Opcode, operands: seq<Word>, count: nat)
    requires |operands| == 3
  {
    AllBelowCount(RoleRegisters(VerifiedRole(op), operands), count)
  }

  ghost predicate RegistersNoted(op: Opcode, operands: seq<Word>, count: nat)
    requires |operands| == 3
  {
    AllBelowCount(RoleRegisters(NotedRole(op), operands), count)
  }

  const CREATE_CLASS: Opcode := 87
  const DEFINE_CLASS_GETTER_BY_ID: Opcode := 94
  const DEFINE_CLASS_SETTER_BY_ID: Opcode := 95
  const CALL_SPREAD_WITH_RECEIVER: Opcode := 130
  const TAIL_CALL_SPREAD_WITH_RECEIVER: Opcode := 131

  /** The one register the verifier demands beyond what the builder noted, where there is one. */
  function UnnotedRegister(op: Opcode, operands: seq<Word>): seq<nat>
    requires |operands| == 3
  {
    if op == CREATE_CLASS then [operands[2] as nat + 1]
    else if op == CALL_SPREAD_WITH_RECEIVER || op == TAIL_CALL_SPREAD_WITH_RECEIVER then [operands[1] as nat + 1]
    else if op == DEFINE_CLASS_GETTER_BY_ID || op == DEFINE_CLASS_SETTER_BY_ID then [operands[2] as nat]
    else []
  }

  /** The tables agree everywhere except on six opcodes; on one of those the builder is the stricter. */
  lemma RolesDiffer(op: Opcode)
    ensures op !in {82, 87, 94, 95, 130, 131} ==> VerifiedRole(op) == NotedRole(op)
    ensures op == 82 ==> VerifiedRole(op) == First && NotedRole(op) == FirstTwo
    ensures op == CREATE_CLASS ==> VerifiedRole(op) == ClassPair && NotedRole(op) == FirstAndThird
    ensures op in {130, 131} ==> VerifiedRole(op) == SpreadReceiver && NotedRole(op) == AllThree
    ensures op in {94, 95} ==> VerifiedRole(op) == AllThree && NotedRole(op) == FirstTwo
  {
  }

  /**
   * Whether a builder-computed register count satisfies the verifier: it does, for every instruction,
   * exactly when the unnoted register of the five exceptional opcodes is below the count too.
   */
  lemma NotedCountSuffices(op: Opcode, operands: seq<Word>, count: nat)
    requires |operands| == 3 && RegistersNoted(op, operands, count)
    ensures RegistersVerified(op, operands, count) <==> AllBelowCount(UnnotedRegister(op, operands), count)
  {
    hide VerifiedRole, NotedRole;
    RolesDiffer(op);
    var noted := RoleRegisters(NotedRole(op), operands);
    var verified := RoleRegisters(VerifiedRole(op), operands);
    if op == 82 {
      assert noted == verified + [operands[1] as nat];
      PrefixBelow(verified, [operands[1] as nat], count);
    } else {
      assert verified == noted + UnnotedRegister(op, operands);
      PrefixBelow(noted, UnnotedRegister(op, operands), count);
    }
  }

  lemma PrefixBelow(a: seq<nat>, b: seq<nat>, count: nat)
    ensures AllBelowCount(a + b, count) <==> AllBelowCount(a, count) && AllBelowCount(b, count)
  {
    if AllBelowCount(a + b, count) {
      forall i | 0 <= i < |a| ensures a[i] < count { assert (a + b)[i] == a[i]; }
      forall i | 0 <= i < |b| ensures b[i] < count { assert (a + b)[|a| + i] == b[i]; }
    }
  }

  /** A builder count that the verifier refuses: `CreateClass` in three registers with its pair at 2 and 3. */
  lemma NotedCountMayFail()
    ensures RegistersNoted(CREATE_CLASS, [0, 0, 2], 3) && !RegistersVerified(CREATE_CLASS, [0, 0, 2], 3)
  {
    assert RoleRegisters(FirstAndThird, [0, 0, 2]) == [0, 2];
    assert RoleRegisters(ClassPair, [0, 0, 2]) == [0, 2, 3];
    assert RoleRegisters(ClassPair, [0, 0, 2])[2] == 3;
  }

  /** Whether `r` lies in the contiguous window an instruction reads. */
  predicate InWindow(role: Role, operands: seq<Word>, r: nat)
    requires |operands| == 3
  {
    var b: nat, c: nat := operands[1], operands[2];
    match role
    case CallWindow => b <= r <= b + c
    case ReceiverWindow => b <= r <= b + 1 + c
    case FieldWindow => b <= r < b + 4 * c
    case _ => false
  }

  /** Every register of a call or field window is below the count, not only the last. */
  lemma WindowBelowCount(op: Opcode, operands: seq<Word>, count: nat, r: nat)
    requires |operands| == 3 && RegistersVerified(op, operands, count)
    requires InWindow(VerifiedRole(op), operands, r)
    ensures r < count
  {
    hide VerifiedRole;
    var registers := RoleRegisters(VerifiedRole(op), operands);
    assert registers[|registers| - 1] < count;
  }
}
