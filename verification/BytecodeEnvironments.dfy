/** Lexical environment depth: the static depth of every offset and the validation that fixes it. */
module BytecodeEnvironments {
  import opened BytecodeEncoding
  import opened BytecodeCodec
  import opened BytecodeVerifier
  import opened BytecodeHandlers

  const ENTER_CLASS_ENVIRONMENT: Opcode := 103
  const INITIALIZE_CLASS_ENVIRONMENT: Opcode := 104
  const LEAVE_CLASS_ENVIRONMENT: Opcode := 105
  const ENTER_LEXICAL_ENVIRONMENT: Opcode := 141
  const INITIALIZE_LEXICAL_ENVIRONMENT: Opcode := 142
  const LEAVE_LEXICAL_ENVIRONMENT: Opcode := 143

  predicate IsEnter(op: Opcode) { op == ENTER_CLASS_ENVIRONMENT || op == ENTER_LEXICAL_ENVIRONMENT }
  predicate IsInitialize(op: Opcode) { op == INITIALIZE_CLASS_ENVIRONMENT || op == INITIALIZE_LEXICAL_ENVIRONMENT }
  predicate IsLeave(op: Opcode) { op == LEAVE_CLASS_ENVIRONMENT || op == LEAVE_LEXICAL_ENVIRONMENT }

  /** Slot counts of the environments open before an instruction, after it. */
  function After(i: Instruction, stack: seq<nat>): seq<nat>
    requires |i.operands| == 3
  {
    if IsEnter(i.opcode) then stack + [i.operands[0]]
    else if IsLeave(i.opcode) && stack != [] then stack[..|stack| - 1]
    else stack
  }

  /** Open environments before instruction `k` in linear order. */
  ghost function Stack(words: seq<Word>, starts: seq<nat>, k: nat): seq<nat>
    requires Listing(words, starts) && k <= |starts|
  {
    if k == 0 then [] else After(At(words, starts, k - 1), Stack(words, starts, k - 1))
  }

  predicate StackAllows(i: Instruction, stack: seq<nat>)
    requires |i.operands| == 3
  {
    && (IsInitialize(i.opcode) ==> stack != [] && i.operands[1] < stack[|stack| - 1])
    && (IsLeave(i.opcode) ==> stack != [])
  }

  ghost function IndexOf(words: seq<Word>, starts: seq<nat>, offset: nat): (k: nat)
    requires Listing(words, starts) && offset in starts
    ensures k < |starts| && starts[k] == offset
  {
    var k :| 0 <= k < |starts| && starts[k] == offset; k
  }

  lemma IndexUnique(words: seq<Word>, starts: seq<nat>, k: nat)
    requires Listing(words, starts) && k < |starts|
    ensures IndexOf(words, starts, starts[k]) == k
  {
    hide Adjacent;
    var j := IndexOf(words, starts, starts[k]);
    if j < k {
      StartsIncrease(words, starts, |words|, j, k);
    } else if k < j {
      StartsIncrease(words, starts, |words|, k, j);
    }
  }

  /** The single static depth of an instruction start. */
  ghost function DepthAt(words: seq<Word>, starts: seq<nat>, offset: nat): nat
    requires Listing(words, starts) && offset in starts
  {
    |Stack(words, starts, IndexOf(words, starts, offset))|
  }

  /** Plain and conditional jumps keep the depth; abrupt jumps name their target's depth and never raise it. */
  predicate JumpDepthAllowed(i: Instruction, source: nat, target: nat)
    requires |i.operands| == 3
  {
    if IsAbrupt(i.opcode) then i.operands[1] == target && target <= source else source == target
  }

  /** No environment is left or initialised at depth zero, and every initialised slot exists. */
  ghost predicate StacksAllowed(words: seq<Word>, starts: seq<nat>)
    requires Listing(words, starts)
  {
    forall k {:trigger StackAllows(At(words, starts, k), Stack(words, starts, k))} | 0 <= k < |starts| ::
      StackAllows(At(words, starts, k), Stack(words, starts, k))
  }

  ghost predicate TargetsAreStarts(words: seq<Word>, starts: seq<nat>)
    requires Listing(words, starts)
  {
    forall k | 0 <= k < |starts| && HasTarget(At(words, starts, k).opcode) :: TargetOf(At(words, starts, k)) in starts
  }

  /** Every jump agrees with the depth at its target. */
  ghost predicate JumpsAllowed(words: seq<Word>, starts: seq<nat>)
    requires Listing(words, starts) && TargetsAreStarts(words, starts)
  {
    forall k {:trigger JumpAllowed(words, starts, k)} | 0 <= k < |starts| && HasTarget(At(words, starts, k).opcode) ::
      JumpAllowed(words, starts, k)
  }

  ghost predicate JumpAllowed(words: seq<Word>, starts: seq<nat>, k: nat)
    requires Listing(words, starts) && k < |starts| && HasTarget(At(words, starts, k).opcode)
    requires TargetOf(At(words, starts, k)) in starts
  {
    JumpDepthAllowed(At(words, starts, k), |Stack(words, starts, k)|, DepthAt(words, starts, TargetOf(At(words, starts, k))))
  }

  ghost predicate EnvironmentsAccepted(words: seq<Word>, starts: seq<nat>, handlers: seq<Handler>)
    requires Listing(words, starts) && TargetsAreStarts(words, starts)
    requires forall i | 0 <= i < |handlers| :: handlers[i].handler in starts
  {
    && StacksAllowed(words, starts)
    && Stack(words, starts, |starts|) == []
    && JumpsAllowed(words, starts)
    && (forall i | 0 <= i < |handlers| :: handlers[i].environmentDepth == DepthAt(words, starts, handlers[i].handler))
  }

  // ----- Validation as it runs -----

  lemma ListingStep(words: seq<Word>, starts: seq<nat>, k: nat)
    requires Listing(words, starts) && k < |starts|
    ensures starts[k] < |words| && Decode(words, starts[k]) == Ok(At(words, starts, k))
    ensures starts[k] + At(words, starts, k).length == Following(starts, |words|, k)
  {
    assert Adjacent(words, starts[k], Following(starts, |words|, k));
  }

  lemma ListingEnds(words: seq<Word>, starts: seq<nat>)
    requires Listing(words, starts)
    ensures (if starts == [] then |words| else starts[0]) == 0
  {
  }

  lemma StackStep(words: seq<Word>, starts: seq<nat>, k: nat)
    requires Listing(words, starts) && k < |starts|
    ensures Stack(words, starts, 0) == []
    ensures Stack(words, starts, k + 1) == After(At(words, starts, k), Stack(words, starts, k))
  {
  }

  lemma StackStart(words: seq<Word>, starts: seq<nat>)
    requires Listing(words, starts)
    ensures Stack(words, starts, 0) == []
  {
  }

  lemma DepthsRecordedStep(words: seq<Word>, starts: seq<nat>, depths: seq<nat>, k: nat)
    requires Listing(words, starts) && k < |starts| && DepthsRecorded(words, starts, depths, k)
    ensures starts[k] < |depths| && DepthsRecorded(words, starts, depths[starts[k] := |Stack(words, starts, k)|], k + 1)
  {
    hide Decode, Prefix, Stack;
    ListingStep(words, starts, k);
    EarlierKept(words, starts, k);
  }

  /** Records the depth at every boundary reached so far. */
  ghost predicate DepthsRecorded(words: seq<Word>, starts: seq<nat>, depths: seq<nat>, n: nat)
    requires Listing(words, starts) && n <= |starts|
  {
    && |depths| == |words| + 1
    && forall k | 0 <= k < n :: starts[k] < |words| && depths[starts[k]] == |Stack(words, starts, k)|
  }

  /** First pass: a linear scan that tracks open environments and their slot counts. */
  method ScanDepths(words: seq<Word>, ghost starts: seq<nat>) returns (ok: bool, depths: seq<nat>)
    requires Listing(words, starts)
    ensures ok <==>
      StacksAllowed(words, starts) && Stack(words, starts, |starts|) == []
    ensures ok ==> DepthsRecorded(words, starts, depths, |starts|)
  {
    hide Decode, Prefix, After, Stack, StackAllows, DepthsRecorded;
    depths := seq(|words| + 1, _ => 0);
    var stack: seq<nat> := [];
    var offset: nat := 0;
    ghost var k := 0;
    ListingEnds(words, starts);
    StackStart(words, starts);
    NothingRecorded(words, starts, depths);
    while offset < |words|
      invariant k <= |starts| && offset == (if k < |starts| then starts[k] else |words|)
      invariant stack == Stack(words, starts, k)
      invariant DepthsRecorded(words, starts, depths, k)
      invariant forall j | 0 <= j < k :: StackAllows(At(words, starts, j), Stack(words, starts, j))
      decreases |starts| - k
    {
      DepthsRecordedStep(words, starts, depths, k);
      ListingStep(words, starts, k);
      StackStep(words, starts, k);
      depths := depths[offset := |stack|];
      var decoded := DecodeInstruction(words, offset);
      if !StackAllows(decoded.instruction, stack) {
        assert !StackAllows(At(words, starts, k), Stack(words, starts, k));
        return false, depths;
      }
      stack := After(decoded.instruction, stack);
      offset, k := offset + decoded.instruction.length, k + 1;
    }
    if k < |starts| {
      LastStartBefore(words, starts, |words|, k);
    }
    ok := stack == [];
  }

  lemma NothingRecorded(words: seq<Word>, starts: seq<nat>, depths: seq<nat>)
    requires Listing(words, starts) && |depths| == |words| + 1
    ensures DepthsRecorded(words, starts, depths, 0)
  {
  }

  lemma EarlierKept(words: seq<Word>, starts: seq<nat>, k: nat)
    requires Listing(words, starts) && k < |starts|
    ensures forall j | 0 <= j < k :: starts[j] < starts[k]
  {
    hide Adjacent;
    forall j | 0 <= j < k ensures starts[j] < starts[k] {
      StartsIncrease(words, starts, |words|, j, k);
    }
  }

  lemma RecordedDepth(words: seq<Word>, starts: seq<nat>, depths: seq<nat>, offset: nat)
    requires Listing(words, starts) && DepthsRecorded(words, starts, depths, |starts|) && offset in starts
    ensures offset < |depths| && depths[offset] == DepthAt(words, starts, offset)
  {
    assert starts[IndexOf(words, starts, offset)] == offset;
  }

  /** Second and third pass: jump edges, then handler entries. */
  method ValidateEnvironments(words: seq<Word>, ghost starts: seq<nat>, handlers: seq<Handler>) returns (ok: bool)
    requires Listing(words, starts)
    requires TargetsAreStarts(words, starts)
    requires forall i | 0 <= i < |handlers| :: handlers[i].handler in starts
    ensures ok <==> EnvironmentsAccepted(words, starts, handlers)
  {
    hide Decode, Adjacent, Stack, DepthAt, StackAllows, DepthsRecorded;
    var depths;
    ok, depths := ScanDepths(words, starts);
    if !ok { return; }
    ok := CheckJumps(words, starts, depths);
    if !ok { return; }
    for i := 0 to |handlers|
      invariant forall j | 0 <= j < i :: handlers[j].environmentDepth == DepthAt(words, starts, handlers[j].handler)
    {
      RecordedDepth(words, starts, depths, handlers[i].handler);
      if handlers[i].environmentDepth != depths[handlers[i].handler] { return false; }
    }
  }

  method CheckJumps(words: seq<Word>, ghost starts: seq<nat>, depths: seq<nat>) returns (ok: bool)
    requires Listing(words, starts) && DepthsRecorded(words, starts, depths, |starts|)
    requires TargetsAreStarts(words, starts)
    ensures ok <==> JumpsAllowed(words, starts)
  {
    hide Decode, Prefix, Stack, JumpDepthAllowed;
    var offset: nat := 0;
    ghost var k := 0;
    ListingEnds(words, starts);
    while offset < |words|
      invariant k <= |starts| && offset == (if k < |starts| then starts[k] else |words|)
      invariant forall j | 0 <= j < k && HasTarget(At(words, starts, j).opcode) :: JumpAllowed(words, starts, j)
      decreases |starts| - k
    {
      ListingStep(words, starts, k);
      var decoded := DecodeInstruction(words, offset);
      if HasTarget(decoded.instruction.opcode) {
        var target := TargetOf(decoded.instruction);
        RecordedDepth(words, starts, depths, target);
        assert depths[offset] == |Stack(words, starts, k)|;
        if !JumpDepthAllowed(decoded.instruction, depths[offset], depths[target]) {
          assert !JumpAllowed(words, starts, k);
          return false;
        }
      }
      offset, k := offset + decoded.instruction.length, k + 1;
    }
    return true;
  }

  // ----- Completion instructions -----

  /** A break or continue leaves the protected range or the body of `h`. */
  predicate CrossesFinalizer(h: Handler, offset: nat, target: nat) {
    && IsFinalizer(h)
    && ((Protects(h, offset) && !Protects(h, target)) || (BodyCovers(h, offset) && !BodyCovers(h, target)))
  }

  /** What validation demands of a completion instruction at `offset` ending at `next`. */
  predicate FinallyAllowed(handlers: seq<Handler>, i: Instruction, offset: nat, next: nat, depth: nat)
    requires |i.operands| == 3
  {
    && (i.opcode == ENTER_FINALLY ==> exists j :: 0 <= j < |handlers| && IsFinalizer(handlers[j]) && Protects(handlers[j], offset))
    && (i.opcode == RESUME_COMPLETION ==>
          exists j :: 0 <= j < |handlers| && IsFinalizer(handlers[j]) && handlers[j].handler <= offset && handlers[j].handlerEnd == next)
    && (IsAbrupt(i.opcode) ==>
          (i.operands[1] < depth || exists j :: 0 <= j < |handlers| && CrossesFinalizer(handlers[j], offset, i.operands[0])))
  }

  ghost predicate FinallyAccepted(words: seq<Word>, starts: seq<nat>, handlers: seq<Handler>)
    requires Listing(words, starts)
  {
    forall k | 0 <= k < |starts| ::
      FinallyAllowed(handlers, At(words, starts, k), starts[k], Following(starts, |words|, k), |Stack(words, starts, k)|)
  }

  /** One linear scan with a saturating depth counter. */
  method ValidateFinally(words: seq<Word>, ghost starts: seq<nat>, handlers: seq<Handler>) returns (ok: bool)
    requires Listing(words, starts)
    ensures ok <==> FinallyAccepted(words, starts, handlers)
  {
    hide Decode, Prefix, Stack, FinallyAllowed;
    var offset: nat := 0;
    var depth: nat := 0;
    ghost var k := 0;
    ListingEnds(words, starts);
    StackStart(words, starts);
    while offset < |words|
      invariant k <= |starts| && offset == (if k < |starts| then starts[k] else |words|)
      invariant depth == |Stack(words, starts, k)|
      invariant forall j | 0 <= j < k ::
        FinallyAllowed(handlers, At(words, starts, j), starts[j], Following(starts, |words|, j), |Stack(words, starts, j)|)
      decreases |starts| - k
    {
      ListingStep(words, starts, k);
      StackStep(words, starts, k);
      var decoded := DecodeInstruction(words, offset);
      var next := offset + decoded.instruction.length;
      if !FinallyAllowed(handlers, decoded.instruction, offset, next, depth) { return false; }
      if IsEnter(decoded.instruction.opcode) {
        depth := depth + 1;
      } else if IsLeave(decoded.instruction.opcode) && depth > 0 {
        depth := depth - 1;
      }
      offset, k := next, k + 1;
    }
    if k < |starts| {
      LastStartBefore(words, starts, |words|, k);
    }
    return true;
  }
}
