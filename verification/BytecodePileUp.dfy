/** A function every validation pass accepts whose runs save completions without bound. */
module BytecodePileUp {
  import opened Options
  import opened BytecodeEncoding
  import opened BytecodeVerifier
  import opened BytecodeHandlers
  import opened BytecodeEnvironments
  import opened BytecodeRuns

  /** EnterFinally; Jump 0; ResumeCompletion; ReturnUndefined. The finalizer's body starts with the jump,
      which leaves it for the instruction it protects. */
  const CODE: seq<Word> := [198, 9, 199, 46]
  const STARTS: seq<nat> := [0, 1, 2, 3]
  const TABLE: seq<Handler> := [Handler(0, 1, 1, 3, Finally, 0)]
  const POOL := Pool([], 0, 0, 1)
  const PROGRAM := Program(CODE, STARTS, TABLE, 0, false)

  lemma FinallyDecodes()
    ensures Decode(CODE, 0) == Ok(Instruction(70, Wide, [0, 0, 0], 1))
  {
  }

  lemma JumpDecodesHere()
    ensures Decode(CODE, 1) == Ok(Instruction(9, Compact, [0, 0, 0], 1))
  {
    assert CompactOperands(9, 1) == [0];
  }

  lemma ResumeDecodes()
    ensures Decode(CODE, 2) == Ok(Instruction(71, Wide, [0, 0, 0], 1))
  {
  }

  lemma ReturnDecodes()
    ensures Decode(CODE, 3) == Ok(Instruction(46, Compact, [0, 0, 0], 1))
  {
  }

  lemma CodeListed()
    ensures Listing(CODE, STARTS)
    ensures At(CODE, STARTS, 0).opcode == ENTER_FINALLY && At(CODE, STARTS, 1).opcode == JUMP
    ensures At(CODE, STARTS, 2).opcode == RESUME_COMPLETION && At(CODE, STARTS, 3).opcode == RETURN_UNDEFINED
    ensures TargetOf(At(CODE, STARTS, 1)) == 0
  {
    hide Decode;
    FinallyDecodes();
    JumpDecodesHere();
    ResumeDecodes();
    ReturnDecodes();
    assert Adjacent(CODE, STARTS[0], 1) && Adjacent(CODE, STARTS[1], 2);
    assert Adjacent(CODE, STARTS[2], 3) && Adjacent(CODE, STARTS[3], 4);
  }

  lemma StartsHere()
    ensures 0 in STARTS && 1 in STARTS && 3 in STARTS
  {
    assert STARTS[0] == 0 && STARTS[1] == 1 && STARTS[3] == 3;
  }

  lemma InstructionChecked(k: nat)
    requires k < |STARTS|
    ensures Listing(CODE, STARTS)
    ensures InstructionVerified(At(CODE, STARTS, k), STARTS, 0)
    ensures OperandsVerified(At(CODE, STARTS, k).opcode, At(CODE, STARTS, k).operands, POOL)
  {
    hide Decode, Prefix, At;
    CodeListed();
    StartsHere();
  }

  lemma CodeVerified()
    ensures FullyVerified(CODE, STARTS, 0, POOL)
  {
    hide Decode, Prefix, InstructionVerified, OperandsVerified;
    CodeListed();
    forall k | 0 <= k < |STARTS|
      ensures InstructionVerified(At(CODE, STARTS, k), STARTS, 0)
      ensures OperandsVerified(At(CODE, STARTS, k).opcode, At(CODE, STARTS, k).operands, POOL)
    {
      InstructionChecked(k);
    }
  }

  lemma TableAccepted()
    ensures Listing(CODE, STARTS) && HandlersAccepted(CODE, STARTS, TABLE)
  {
    hide Decode, Prefix;
    CodeListed();
    StartsHere();
    assert Following(STARTS, |CODE|, 2) == 3 && At(CODE, STARTS, 2).opcode == RESUME_COMPLETION;
    assert EntryValid(CODE, STARTS, TABLE[0]);
  }

  lemma Stacks(k: nat)
    requires k <= |STARTS|
    ensures Listing(CODE, STARTS) && Stack(CODE, STARTS, k) == []
  {
    hide Decode, Prefix;
    CodeListed();
    if k > 0 {
      Stacks(k - 1);
    }
  }

  lemma Depths(offset: nat)
    requires offset in STARTS
    ensures Listing(CODE, STARTS) && DepthAt(CODE, STARTS, offset) == 0
  {
    hide Decode, Prefix, Stack, At;
    CodeListed();
    Stacks(IndexOf(CODE, STARTS, offset));
  }

  lemma EnvironmentsValid()
    ensures Listing(CODE, STARTS) && TargetsListed(PROGRAM) && EnvironmentsAccepted(CODE, STARTS, TABLE)
  {
    hide Decode, Prefix, Stack, Listing, At, DepthAt;
    CodeListed();
    StartsHere();
    Depths(0);
    Depths(1);
    forall k | 0 <= k <= |STARTS| ensures Stack(CODE, STARTS, k) == [] {
      Stacks(k);
    }
    forall k | 0 <= k < |STARTS| && HasTarget(At(CODE, STARTS, k).opcode)
      ensures k == 1 && JumpAllowed(CODE, STARTS, k)
    {
    }
  }

  lemma FinallyValid()
    ensures Listing(CODE, STARTS) && FinallyAccepted(CODE, STARTS, TABLE) && Aligned(PROGRAM)
  {
    hide Decode, Prefix, Stack;
    CodeListed();
    assert IsFinalizer(TABLE[0]) && Protects(TABLE[0], 0);
    Stacks(0);
    assert FindFinally(TABLE, 1, 0) == Some(0);
  }

  lemma ProgramAccepted()
    ensures FullyVerified(CODE, STARTS, 0, POOL) && Accepted(PROGRAM) && FinallyAccepted(CODE, STARTS, TABLE) && Aligned(PROGRAM)
  {
    hide Decode, Prefix, Stack, Verified, HandlersAccepted, EnvironmentsAccepted, TargetsListed, FinallyAccepted, Aligned;
    CodeVerified();
    TableAccepted();
    EnvironmentsValid();
    FinallyValid();
  }

  /** The reported depths reserve room for one completion. */
  lemma OneReserved()
    ensures DepthsBounded(TABLE, HandlerDepth(1, 1))
  {
    var h := TABLE[0];
    assert Selected(TABLE, 1, x => Contains(x, h)) == {0};
    assert Selected(TABLE, 1, x => FinalizerContains(x, h)) == {0};
    assert Selected(TABLE, 1, x => FinalizerExecutesAround(x, h)) == {};
  }

  function Pile(n: nat): seq<Saved> { seq(n, _ => Saved(0, Ordinary)) }

  /** Going round `n` times: in through `EnterFinally`, out through the jump. */
  function PileRun(n: nat): (run: seq<Machine>)
    ensures run != [] && run[0] == INITIAL && run[|run| - 1] == Machine(0, 0, Pile(n))
  {
    if n == 0 then assert Pile(0) == []; [INITIAL]
    else PileRun(n - 1) + [Machine(1, 0, Pile(n)), Machine(0, 0, Pile(n))]
  }

  lemma RoundTripSteps(n: nat)
    ensures Listing(CODE, STARTS)
    ensures Step(PROGRAM, Machine(0, 0, Pile(n)), Machine(1, 0, Pile(n + 1)))
    ensures Step(PROGRAM, Machine(1, 0, Pile(n)), Machine(0, 0, Pile(n)))
  {
    hide Decode, Prefix, Dispatches;
    CodeListed();
    StartsHere();
    IndexUnique(CODE, STARTS, 0);
    IndexUnique(CODE, STARTS, 1);
    assert FindFinally(TABLE, 1, 0) == Some(0);
    assert Pile(n + 1) == Pile(n) + [Saved(0, Ordinary)];
    assert EntersFinally(PROGRAM, Machine(0, 0, Pile(n)), Machine(1, 0, Pile(n + 1)));
  }

  lemma {:induction false} PileRuns(n: nat)
    ensures Listing(CODE, STARTS) && IsRun(PROGRAM, PileRun(n))
  {
    hide Decode, Prefix, Step;
    CodeListed();
    if n > 0 {
      PileRuns(n - 1);
      RoundTripSteps(n - 1);
      RoundTripSteps(n);
      var before, run := PileRun(n - 1), PileRun(n);
      assert forall i | 0 <= i < |before| :: run[i] == before[i];
    }
  }

  /** However many completions one asks for, some run of the accepted function has saved them. */
  lemma CompletionsPileUp(n: nat)
    ensures FullyVerified(CODE, STARTS, 0, POOL) && Accepted(PROGRAM) && FinallyAccepted(CODE, STARTS, TABLE) && Aligned(PROGRAM)
    ensures DepthsBounded(TABLE, HandlerDepth(1, 1))
    ensures exists run: seq<Machine> :: IsRun(PROGRAM, run) && |run[|run| - 1].saved| == n
  {
    hide Accepted, FinallyAccepted, Aligned, DepthsBounded, IsRun;
    ProgramAccepted();
    OneReserved();
    PileRuns(n);
    var run := PileRun(n);
    assert IsRun(PROGRAM, run) && |run[|run| - 1].saved| == n;
  }
}
