/** Which functions have consistent environment depths, said by counting instead of by the validator's stack. */
module BytecodeDepths {
  import opened BytecodeEncoding
  import opened BytecodeVerifier
  import opened BytecodeOperands
  import opened BytecodeHandlers
  import opened BytecodeEnvironments

  /** Environments opened minus environments closed before instruction `k` in linear order. */
  ghost function Net(words: seq<Word>, starts: seq<nat>, k: nat): int
    requires Listing(words, starts) && k <= |starts|
  {
    if k == 0 then 0 else Net(words, starts, k - 1) + DepthChange(At(words, starts, k - 1).opcode)
  }

  /** No environment is closed that has not been opened. */
  ghost predicate NeverNegative(words: seq<Word>, starts: seq<nat>, n: nat)
    requires Listing(words, starts) && n <= |starts|
  {
    forall k {:trigger Net(words, starts, k)} | 0 <= k <= n :: Net(words, starts, k) >= 0
  }

  /** Instruction `j` opens the environment that is innermost before instruction `k`. */
  ghost predicate Opener(words: seq<Word>, starts: seq<nat>, j: nat, k: nat)
    requires Listing(words, starts) && k <= |starts|
  {
    && j < k && DepthChange(At(words, starts, j).opcode) == 1 && Net(words, starts, j) + 1 == Net(words, starts, k)
    && forall i | j < i <= k :: Net(words, starts, i) > Net(words, starts, j)
  }

  /** What an instruction may do where it stands: initialize a slot that the innermost environment has, jump within
      the depth, break to a depth that is open and that of its target. */
  ghost predicate DepthConsistent(words: seq<Word>, starts: seq<nat>, k: nat)
    requires Listing(words, starts) && k < |starts|
  {
    var i, net := At(words, starts, k), Net(words, starts, k);
    && (i.opcode in {104, 142} ==> exists j: nat :: Opener(words, starts, j, k) && i.operands[1] < At(words, starts, j).operands[0])
    && (forall t | 0 <= t < |starts| && MayJump(i, starts[t]) :: Net(words, starts, t) == net)
    && (forall t, depth: nat | 0 <= t < |starts| && BreaksTo(i, starts[t], depth) :: depth == Net(words, starts, t) <= net)
  }

  ghost predicate DepthsConsistent(words: seq<Word>, starts: seq<nat>, handlers: seq<Handler>)
    requires Listing(words, starts)
  {
    && NeverNegative(words, starts, |starts|) && Net(words, starts, |starts|) == 0
    && (forall k | 0 <= k < |starts| :: DepthConsistent(words, starts, k))
    && (forall h, t | 0 <= h < |handlers| && 0 <= t < |starts| && starts[t] == handlers[h].handler ::
          handlers[h].environmentDepth == Net(words, starts, t))
  }

  lemma StackChange(i: Instruction, stack: seq<nat>)
    requires |i.operands| == 3
    ensures IsEnter(i.opcode) <==> DepthChange(i.opcode) == 1
    ensures IsLeave(i.opcode) <==> DepthChange(i.opcode) == -1
    ensures |stack| + DepthChange(i.opcode) >= 0 ==> |After(i, stack)| == |stack| + DepthChange(i.opcode)
    ensures DepthChange(i.opcode) == 1 ==> After(i, stack) == stack + [i.operands[0]]
    ensures DepthChange(i.opcode) != 1 && |stack| + DepthChange(i.opcode) >= 0 ==> After(i, stack) == stack[..|stack| + DepthChange(i.opcode)]
  {
  }

  lemma {:induction false} StackIsNet(words: seq<Word>, starts: seq<nat>, k: nat)
    requires Listing(words, starts) && k <= |starts| && NeverNegative(words, starts, k)
    ensures |Stack(words, starts, k)| == Net(words, starts, k)
  {
    hide Decode, Prefix, After, DepthChange;
    if k > 0 {
      assert NeverNegative(words, starts, k - 1);
      StackIsNet(words, starts, k - 1);
      assert Net(words, starts, k) >= 0;
      StackChange(At(words, starts, k - 1), Stack(words, starts, k - 1));
    }
  }

  /** The stack records of each open environment how many slots it was opened with. */
  lemma {:induction false} OpenSlots(words: seq<Word>, starts: seq<nat>, j: nat, k: nat)
    requires Listing(words, starts) && j < k <= |starts| && NeverNegative(words, starts, k)
    requires DepthChange(At(words, starts, j).opcode) == 1
    requires forall i | j < i <= k :: Net(words, starts, i) > Net(words, starts, j)
    ensures var stack := Stack(words, starts, k);
      0 <= Net(words, starts, j) < |stack| && stack[Net(words, starts, j)] == At(words, starts, j).operands[0]
    decreases k
  {
    hide Decode, Prefix, After, DepthChange;
    assert NeverNegative(words, starts, k - 1);
    StackIsNet(words, starts, k - 1);
    StackIsNet(words, starts, k);
    StackChange(At(words, starts, k - 1), Stack(words, starts, k - 1));
    assert Net(words, starts, k) > Net(words, starts, j);
    if k - 1 > j {
      OpenSlots(words, starts, j, k - 1);
    }
  }

  /** Wherever an environment is open, some instruction has opened the innermost one. */
  lemma {:induction false} OpenerExists(words: seq<Word>, starts: seq<nat>, k: nat, n: nat) returns (j: nat)
    requires Listing(words, starts) && n <= k <= |starts| && Net(words, starts, k) > 0
    requires forall i | n <= i <= k :: Net(words, starts, i) >= Net(words, starts, k)
    ensures Opener(words, starts, j, k)
    decreases n
  {
    hide Decode, Prefix;
    assert n > 0;
    if Net(words, starts, n - 1) < Net(words, starts, k) {
      assert Net(words, starts, n) >= Net(words, starts, k);
      j := n - 1;
    } else {
      j := OpenerExists(words, starts, k, n - 1);
    }
  }

  lemma TopIsOpener(words: seq<Word>, starts: seq<nat>, j: nat, k: nat)
    requires Listing(words, starts) && k <= |starts| && NeverNegative(words, starts, k) && Opener(words, starts, j, k)
    ensures var stack := Stack(words, starts, k); stack != [] && stack[|stack| - 1] == At(words, starts, j).operands[0]
  {
    hide Decode, Prefix, DepthChange, Stack;
    StackIsNet(words, starts, k);
    OpenSlots(words, starts, j, k);
  }

  /** The stack check of one instruction: it closes no environment that is not open and initializes a slot there is. */
  lemma AllowedIff(words: seq<Word>, starts: seq<nat>, k: nat)
    requires Listing(words, starts) && k < |starts| && NeverNegative(words, starts, k)
    ensures StackAllows(At(words, starts, k), Stack(words, starts, k))
            <==> && Net(words, starts, k + 1) >= 0
                 && (At(words, starts, k).opcode in {104, 142} ==>
                       exists j: nat :: Opener(words, starts, j, k) && At(words, starts, k).operands[1] < At(words, starts, j).operands[0])
  {
    hide Decode, Prefix, Opener, Stack;
    StackIsNet(words, starts, k);
    assert Net(words, starts, k) >= 0;
    if At(words, starts, k).opcode in {104, 142} {
      if Net(words, starts, k) > 0 {
        var j := OpenerExists(words, starts, k, k);
        TopIsOpener(words, starts, j, k);
      }
      forall j: nat | Opener(words, starts, j, k) ensures Stack(words, starts, k) != [] && j < k
        && Stack(words, starts, k)[|Stack(words, starts, k)| - 1] == At(words, starts, j).operands[0]
      {
        OpenerBefore(words, starts, j, k);
        TopIsOpener(words, starts, j, k);
      }
    }
  }

  lemma OpenerBefore(words: seq<Word>, starts: seq<nat>, j: nat, k: nat)
    requires Listing(words, starts) && k <= |starts| && Opener(words, starts, j, k)
    ensures j < k
  {
  }

  lemma {:induction false} AllowedNeverNegative(words: seq<Word>, starts: seq<nat>, n: nat)
    requires Listing(words, starts) && StacksAllowed(words, starts) && n <= |starts|
    ensures NeverNegative(words, starts, n)
  {
    hide Decode, Prefix, StackAllows, DepthChange;
    if n > 0 {
      AllowedNeverNegative(words, starts, n - 1);
      AllowedIff(words, starts, n - 1);
      assert StackAllows(At(words, starts, n - 1), Stack(words, starts, n - 1));
    }
  }

  lemma DepthIsNet(words: seq<Word>, starts: seq<nat>, t: nat)
    requires Listing(words, starts) && NeverNegative(words, starts, |starts|) && t < |starts|
    ensures DepthAt(words, starts, starts[t]) == |Stack(words, starts, t)| == Net(words, starts, t)
  {
    hide Decode, Prefix;
    IndexUnique(words, starts, t);
    assert NeverNegative(words, starts, t);
    StackIsNet(words, starts, t);
  }

  /** The depth check of one jump. */
  lemma JumpIff(words: seq<Word>, starts: seq<nat>, k: nat, t: nat)
    requires Listing(words, starts) && NeverNegative(words, starts, |starts|) && k < |starts| && t < |starts|
    requires HasTarget(At(words, starts, k).opcode) && starts[t] == TargetOf(At(words, starts, k))
    ensures JumpAllowed(words, starts, k)
            <==> && (MayJump(At(words, starts, k), starts[t]) ==> Net(words, starts, t) == Net(words, starts, k))
                 && (forall depth: nat | BreaksTo(At(words, starts, k), starts[t], depth) ::
                       depth == Net(words, starts, t) <= Net(words, starts, k))
  {
    hide Decode, Prefix;
    var i := At(words, starts, k);
    DepthIsNet(words, starts, k);
    DepthIsNet(words, starts, t);
    ControlAgrees(i, starts[t]);
    if IsAbrupt(i.opcode) {
      assert BreaksTo(i, starts[t], i.operands[1]);
    }
  }

  lemma JumpsIff(words: seq<Word>, starts: seq<nat>, k: nat)
    requires Listing(words, starts) && NeverNegative(words, starts, |starts|) && TargetsAreStarts(words, starts) && k < |starts|
    ensures (HasTarget(At(words, starts, k).opcode) ==> JumpAllowed(words, starts, k))
            <==> && (forall t | 0 <= t < |starts| && MayJump(At(words, starts, k), starts[t]) ::
                       Net(words, starts, t) == Net(words, starts, k))
                 && (forall t, depth: nat | 0 <= t < |starts| && BreaksTo(At(words, starts, k), starts[t], depth) ::
                       depth == Net(words, starts, t) <= Net(words, starts, k))
  {
    hide Decode, Prefix, JumpAllowed, MayJump, BreaksTo, HasTarget, TargetOf, IsTerminal, Net;
    var i := At(words, starts, k);
    forall t | 0 <= t < |starts| && HasTarget(i.opcode) && starts[t] == TargetOf(i)
      ensures JumpAllowed(words, starts, k)
              <==> && (MayJump(i, starts[t]) ==> Net(words, starts, t) == Net(words, starts, k))
                   && (forall depth: nat | BreaksTo(i, starts[t], depth) :: depth == Net(words, starts, t) <= Net(words, starts, k))
    {
      JumpIff(words, starts, k, t);
    }
    forall t | 0 <= t < |starts| && MayJump(i, starts[t]) ensures HasTarget(i.opcode) && starts[t] == TargetOf(i) {
      ControlAgrees(i, starts[t]);
    }
    forall t, depth: nat | 0 <= t < |starts| && BreaksTo(i, starts[t], depth)
      ensures HasTarget(i.opcode) && starts[t] == TargetOf(i)
    {
      ControlAgrees(i, starts[t]);
    }
    if HasTarget(i.opcode) {
      assert starts[IndexOf(words, starts, TargetOf(i))] == TargetOf(i);
    }
  }

  /** The validator's stack accepts exactly the functions whose depths are consistent. */
  lemma EnvironmentsIff(words: seq<Word>, starts: seq<nat>, handlers: seq<Handler>)
    requires Listing(words, starts) && TargetsAreStarts(words, starts)
    requires forall h | 0 <= h < |handlers| :: handlers[h].handler in starts
    ensures EnvironmentsAccepted(words, starts, handlers) <==> DepthsConsistent(words, starts, handlers)
  {
    hide Decode, Prefix, StackAllows, JumpAllowed, Opener, Net, Stack, DepthAt;
    if EnvironmentsAccepted(words, starts, handlers) {
      AllowedNeverNegative(words, starts, |starts|);
    }
    if NeverNegative(words, starts, |starts|) {
      StackIsNet(words, starts, |starts|);
      forall k | 0 <= k < |starts|
        ensures (HasTarget(At(words, starts, k).opcode) ==> JumpAllowed(words, starts, k)) && StackAllows(At(words, starts, k), Stack(words, starts, k))
                <==> DepthConsistent(words, starts, k)
      {
        assert NeverNegative(words, starts, k) && Net(words, starts, k + 1) >= 0;
        AllowedIff(words, starts, k);
        JumpsIff(words, starts, k);
      }
      forall h, t | 0 <= h < |handlers| && 0 <= t < |starts| && starts[t] == handlers[h].handler
        ensures DepthAt(words, starts, handlers[h].handler) == Net(words, starts, t)
      {
        DepthIsNet(words, starts, t);
      }
    }
  }
}
