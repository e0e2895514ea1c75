/** The label-patching builder: any sequence of calls ending in a successful `Finish` decodes to what was emitted. */
module BytecodeBuilder {
  import opened Options
  import opened BytecodeEncoding
  import opened BytecodeCodec
  import opened BytecodeRegisters

  const MAX_U32: nat := 0xFFFF_FFFF

  datatype BuilderError =
    | WrongOperands | InvalidLabel | LabelAlreadyBound | UnboundLabel
    | LabelCountOverflow | CodeSizeOverflow | RegisterCountOverflow

  datatype JumpPatch = JumpPatch(labelId: nat, operandWord: nat)
  datatype SourceSpan = SourceSpan(start: nat, end: nat)
  datatype SourceMapEntry = SourceMapEntry(offset: nat, span: SourceSpan)

  /** A symbolic target: which label, which operand it fills, which patch records it. */
  datatype Target = Target(labelId: nat, index: nat, patch: nat)

  /** One emitted instruction as the caller asked for it. */
  datatype Emitted = Emitted(offset: nat, opcode: Opcode, operands: seq<Word>, target: Option<Target>)

  ghost predicate WellFormed(e: Emitted) {
    && |e.operands| == OperandCount(e.opcode)
    && (e.target.Some? ==> e.target.value.index < |e.operands|)
  }

  /** Header of the full-width form, which `emit_jump` and its siblings use whatever the operands. */
  function WideHeader(op: Opcode): nat {
    if op >= BASE_OPCODE_COUNT then EscapeHeader(op) else WIDE_FORMAT * 64 + op
  }

  /** The words emitted for an instruction before patching. */
  ghost function Form(e: Emitted): seq<nat>
    requires WellFormed(e)
  {
    if e.target.None? then Encode(e.opcode, e.operands) else [WideHeader(e.opcode)] + e.operands
  }

  ghost function End(e: Emitted): nat
    requires WellFormed(e)
  {
    e.offset + |Form(e)|
  }

  /** ORing the wide format bits onto the two abrupt-jump opcodes yields exactly their escape header. */
  lemma AbruptHeaderIsEscape()
    ensures WideHeader(BREAK_THROUGH_FINALLY) == 200 && WideHeader(CONTINUE_THROUGH_FINALLY) == 201
    ensures (BREAK_THROUGH_FINALLY as bv8 | 0x80) as nat == WideHeader(BREAK_THROUGH_FINALLY)
    ensures (CONTINUE_THROUGH_FINALLY as bv8 | 0x80) as nat == WideHeader(CONTINUE_THROUGH_FINALLY)
  {
  }

  lemma WideDecodes(words: seq<Word>, start: nat, op: Opcode, operands: seq<Word>)
    requires |operands| == OperandCount(op) && start + 1 + |operands| <= |words|
    requires words[start] == WideHeader(op) && words[start + 1..start + 1 + |operands|] == operands
    ensures Decode(words, start) == Ok(Instruction(op, Wide, Padded(operands), 1 + |operands|))
  {
    hide OperandCount;
    if op >= BASE_OPCODE_COUNT {
      EscapeHeaderDecodes(op);
    } else {
      WideHeaderDecodes(op);
    }
  }

  lemma WideHeaderDecodes(op: nat)
    requires op < BASE_OPCODE_COUNT
    ensures var h := WIDE_FORMAT * 64 + op; h % 256 / 64 == WIDE_FORMAT && h % 64 == op && h / 256 == 0
  {
  }

  ghost predicate Placed(words: seq<Word>, e: Emitted) {
    WellFormed(e) && e.offset <= End(e) <= |words| && words[e.offset..End(e)] == Form(e)
  }

  /** Instructions follow one another without gaps from zero to `length`. */
  ghost predicate Contiguous(length: nat, emitted: seq<Emitted>) {
    && (forall k | 0 <= k < |emitted| :: WellFormed(emitted[k]) && End(emitted[k]) <= length)
    && (forall k | 0 < k < |emitted| :: emitted[k].offset == End(emitted[k - 1]))
    && (forall j, k | 0 <= j < k < |emitted| :: End(emitted[j]) <= emitted[k].offset)
    && (emitted == [] ==> length == 0)
    && (emitted != [] ==> emitted[0].offset == 0 && End(emitted[|emitted| - 1]) == length)
  }

  /** The stream is the emitted forms back to back. */
  ghost predicate Laid(words: seq<Word>, emitted: seq<Emitted>) {
    && Contiguous(|words|, emitted)
    && forall k | 0 <= k < |emitted| :: Placed(words, emitted[k])
  }

  /** An instruction start, or the end of the code emitted so far. */
  ghost predicate Boundary(words: seq<Word>, emitted: seq<Emitted>, offset: nat) {
    offset == |words| || exists k :: 0 <= k < |emitted| && emitted[k].offset == offset
  }

  ghost predicate LabelsAtBoundaries(words: seq<Word>, emitted: seq<Emitted>, labels: seq<Option<Word>>) {
    forall l | 0 <= l < |labels| && labels[l].Some? :: Boundary(words, emitted, labels[l].value)
  }

  /** Patches and symbolic targets match one to one. */
  ghost predicate PatchesMatch(emitted: seq<Emitted>, patches: seq<JumpPatch>, owner: seq<nat>, labelCount: nat) {
    && |owner| == |patches|
    && (forall q | 0 <= q < |patches| ::
          && owner[q] < |emitted| && emitted[owner[q]].target.Some? && emitted[owner[q]].target.value.patch == q)
    && (forall k | 0 <= k < |emitted| && emitted[k].target.Some? ::
          var t := emitted[k].target.value;
          && t.patch < |patches| && t.labelId < labelCount && owner[t.patch] == k
          && patches[t.patch] == JumpPatch(t.labelId, emitted[k].offset + 1 + t.index))
  }

  ghost predicate SourceMapMatches(emitted: seq<Emitted>, sourceMap: seq<SourceMapEntry>) {
    && |sourceMap| == |emitted|
    && forall k | 0 <= k < |emitted| :: sourceMap[k].offset == emitted[k].offset
  }

  /** The builder's register count covers every register its own table finds. */
  ghost predicate RegistersCovered(emitted: seq<Emitted>, count: nat) {
    forall k | 0 <= k < |emitted| ::
      WellFormed(emitted[k]) && RegistersNoted(emitted[k].opcode, Padded(emitted[k].operands), count)
  }

  /** The registers an instruction makes the builder count. */
  ghost function Noted(op: Opcode, operands: seq<Word>): set<nat>
    requires |operands| <= 3
  {
    set r | r in RoleRegisters(NotedRole(op), Padded(operands))
  }

  /** The count is zero or one more than a register of an emitted instruction, or of one refused after its registers were noted. */
  ghost predicate CountNeeded(emitted: seq<Emitted>, refused: set<nat>, count: nat) {
    || count == 0 || count - 1 in refused
    || exists k :: 0 <= k < |emitted| && WellFormed(emitted[k]) && count - 1 in Noted(emitted[k].opcode, emitted[k].operands)
  }

  lemma CountStaysNeeded(emitted: seq<Emitted>, refused: set<nat>, count: nat, e: Emitted, more: set<nat>)
    requires CountNeeded(emitted, refused, count) && refused <= more
    ensures CountNeeded(emitted, more, count) && CountNeeded(emitted + [e], more, count)
  {
    hide Noted;
    if count != 0 && count - 1 !in refused {
      var k :| 0 <= k < |emitted| && WellFormed(emitted[k]) && count - 1 in Noted(emitted[k].opcode, emitted[k].operands);
      assert (emitted + [e])[k] == emitted[k];
    }
  }

  /** After noting the registers of `e`: the count is needed once `e` is emitted, or counted as refused. */
  lemma CountNewlyNeeded(emitted: seq<Emitted>, refused: set<nat>, before: nat, count: nat, e: Emitted)
    requires CountNeeded(emitted, refused, before) && WellFormed(e)
    requires count == before || (count > 0 && count - 1 in Noted(e.opcode, e.operands))
    ensures CountNeeded(emitted + [e], refused, count)
    ensures CountNeeded(emitted, refused + Noted(e.opcode, e.operands), count)
  {
    hide Noted;
    if count == before {
      CountStaysNeeded(emitted, refused, count, e, refused);
      CountStaysNeeded(emitted, refused, count, e, refused + Noted(e.opcode, e.operands));
    } else {
      assert (emitted + [e])[|emitted|] == e;
    }
  }

  lemma ContiguousAppend(length: nat, emitted: seq<Emitted>, e: Emitted)
    requires Contiguous(length, emitted) && WellFormed(e) && e.offset == length && End(e) > length
    ensures Contiguous(End(e), emitted + [e])
  {
    hide End, WellFormed;
    var all := emitted + [e];
    assert forall k | 0 <= k < |emitted| :: all[k] == emitted[k];
    forall k | 0 < k < |all| ensures all[k].offset == End(all[k - 1]) {
      assert all[k - 1] == emitted[k - 1];
    }
  }

  lemma PlacedLast(words: seq<Word>, e: Emitted, code: seq<Word>)
    requires WellFormed(e) && e.offset == |words| && code == Form(e)
    ensures Placed(words + code, e)
  {
    hide Form, WellFormed;
    assert (words + code)[|words|..|words + code|] == code;
  }

  lemma PlacedEarlier(words: seq<Word>, e: Emitted, code: seq<Word>)
    requires Placed(words, e)
    ensures Placed(words + code, e)
  {
    hide Form, WellFormed, End;
    assert (words + code)[e.offset..End(e)] == words[e.offset..End(e)];
  }

  lemma LaidAppend(words: seq<Word>, emitted: seq<Emitted>, e: Emitted, code: seq<Word>)
    requires Laid(words, emitted) && WellFormed(e) && e.offset == |words| && code == Form(e) && |code| >= 1
    ensures Laid(words + code, emitted + [e])
  {
    hide Contiguous, Form, WellFormed, Placed;
    ContiguousAppend(|words|, emitted, e);
    PlacedLast(words, e, code);
    var all := emitted + [e];
    forall k | 0 <= k < |all| ensures Placed(words + code, all[k]) {
      if k < |emitted| {
        PlacedEarlier(words, emitted[k], code);
      }
    }
  }

  lemma LabelsAppend(words: seq<Word>, emitted: seq<Emitted>, labels: seq<Option<Word>>, e: Emitted, code: seq<Word>)
    requires LabelsAtBoundaries(words, emitted, labels) && e.offset == |words|
    ensures LabelsAtBoundaries(words + code, emitted + [e], labels)
  {
    forall l | 0 <= l < |labels| && labels[l].Some? ensures Boundary(words + code, emitted + [e], labels[l].value) {
      assert Boundary(words, emitted, labels[l].value);
      if labels[l].value == |words| {
        assert (emitted + [e])[|emitted|].offset == |words|;
      } else {
        var k :| 0 <= k < |emitted| && emitted[k].offset == labels[l].value;
        assert (emitted + [e])[k].offset == labels[l].value;
      }
    }
  }

  lemma PatchesAppend(emitted: seq<Emitted>, patches: seq<JumpPatch>, owner: seq<nat>, n: nat, e: Emitted)
    requires PatchesMatch(emitted, patches, owner, n)
    requires e.target.Some? ==> e.target.value.patch == |patches| && e.target.value.labelId < n
    ensures e.target.None? ==> PatchesMatch(emitted + [e], patches, owner, n)
    ensures e.target.Some? ==>
      PatchesMatch(emitted + [e], patches + [JumpPatch(e.target.value.labelId, e.offset + 1 + e.target.value.index)],
                   owner + [|emitted|], n)
  {
  }

  lemma RegistersAppend(emitted: seq<Emitted>, count: nat, count': nat, e: Emitted)
    requires RegistersCovered(emitted, count) && count <= count' && WellFormed(e)
    requires RegistersNoted(e.opcode, Padded(e.operands), count')
    ensures RegistersCovered(emitted + [e], count')
  {
    hide NotedRole, OperandCount;
    var all := emitted + [e];
    forall k | 0 <= k < |all| ensures WellFormed(all[k]) && RegistersNoted(all[k].opcode, Padded(all[k].operands), count') {
      if k < |emitted| {
        assert RegistersNoted(emitted[k].opcode, Padded(emitted[k].operands), count);
      }
    }
  }

  // ----- Finished code -----

  /** The operands with the symbolic target replaced by its bound offset. */
  ghost function Resolved(e: Emitted, labels: seq<Option<Word>>): seq<Word>
    requires WellFormed(e) && Bound(e, labels)
  {
    if e.target.None? then e.operands else e.operands[e.target.value.index := labels[e.target.value.labelId].value]
  }

  /** Words after the first `n` patches have been applied. */
  ghost predicate Patched(before: seq<Word>, after: seq<Word>, patches: seq<JumpPatch>, labels: seq<Option<Word>>, n: nat)
    requires n <= |patches|
  {
    && |after| == |before|
    && (forall q | 0 <= q < n ::
          && patches[q].operandWord < |after| && patches[q].labelId < |labels| && labels[patches[q].labelId].Some?
          && after[patches[q].operandWord] == labels[patches[q].labelId].value)
    && (forall j | 0 <= j < |before| :: after[j] != before[j] ==> exists q :: 0 <= q < n && patches[q].operandWord == j)
  }

  ghost predicate Bound(e: Emitted, labels: seq<Option<Word>>) {
    e.target.Some? ==> e.target.value.labelId < |labels| && labels[e.target.value.labelId].Some?
  }

  /** Instruction `k` decodes at its offset to what was emitted, and ends where the next one begins. */
  ghost predicate DecodesAt(words: seq<Word>, emitted: seq<Emitted>, labels: seq<Option<Word>>, k: nat)
    requires k < |emitted|
  {
    && WellFormed(emitted[k]) && Bound(emitted[k], labels)
    && var d := Decode(words, emitted[k].offset);
    && d.Ok? && d.instruction.opcode == emitted[k].opcode
    && d.instruction.operands == Padded(Resolved(emitted[k], labels))
    && emitted[k].offset + d.instruction.length == (if k + 1 < |emitted| then emitted[k + 1].offset else |words|)
  }

  /** Linear decoding of the finished words yields exactly the emitted instructions, in order. */
  ghost predicate DecodesTo(words: seq<Word>, emitted: seq<Emitted>, labels: seq<Option<Word>>) {
    && (emitted == [] ==> words == [])
    && (emitted != [] ==> emitted[0].offset == 0)
    && forall k | 0 <= k < |emitted| :: DecodesAt(words, emitted, labels, k)
  }

  /** Two instructions that share a word are the same instruction. */
  lemma SameInstruction(length: nat, emitted: seq<Emitted>, j: nat, k: nat, w: nat)
    requires Contiguous(length, emitted) && j < |emitted| && k < |emitted|
    requires emitted[j].offset <= w < End(emitted[j]) && emitted[k].offset <= w < End(emitted[k])
    ensures j == k
  {
  }

  /** Only patched operand words differ from what was emitted. */
  lemma ChangedWordIsTarget(before: seq<Word>, after: seq<Word>, emitted: seq<Emitted>, patches: seq<JumpPatch>,
                            owner: seq<nat>, labels: seq<Option<Word>>, k: nat, w: nat)
    requires Contiguous(|before|, emitted) && PatchesMatch(emitted, patches, owner, |labels|)
    requires Patched(before, after, patches, labels, |patches|)
    requires k < |emitted| && emitted[k].offset <= w < End(emitted[k]) && after[w] != before[w]
    ensures emitted[k].target.Some? && w == emitted[k].offset + 1 + emitted[k].target.value.index
  {
    hide OperandCount;
    var q :| 0 <= q < |patches| && patches[q].operandWord == w;
    var j := owner[q];
    assert emitted[j].target.value.patch == q;
    assert patches[q] == JumpPatch(emitted[j].target.value.labelId, emitted[j].offset + 1 + emitted[j].target.value.index);
    SameInstruction(|before|, emitted, j, k, w);
  }

  lemma PlainDecodes(before: seq<Word>, after: seq<Word>, e: Emitted)
    requires Placed(before, e) && e.target.None? && |after| == |before|
    requires forall w | e.offset <= w < End(e) :: after[w] == before[w]
    ensures var d := Decode(after, e.offset);
      d.Ok? && d.instruction.opcode == e.opcode && d.instruction.operands == Padded(e.operands) && e.offset + d.instruction.length == End(e)
  {
    hide OperandCount, Encode, Decode;
    assert after[e.offset..End(e)] == before[e.offset..End(e)];
    RoundTrip(after, e.offset, e.opcode, e.operands);
  }

  lemma JumpDecodes(before: seq<Word>, after: seq<Word>, e: Emitted, labels: seq<Option<Word>>)
    requires Placed(before, e) && e.target.Some? && |after| == |before|
    requires e.target.value.labelId < |labels| && labels[e.target.value.labelId].Some?
    requires after[e.offset + 1 + e.target.value.index] == labels[e.target.value.labelId].value
    requires forall w | e.offset <= w < End(e) && w != e.offset + 1 + e.target.value.index :: after[w] == before[w]
    ensures Decode(after, e.offset) == Ok(Instruction(e.opcode, Wide, Padded(Resolved(e, labels)), |Form(e)|))
  {
    hide OperandCount, Decode, WideHeader;
    var operands := Resolved(e, labels);
    assert before[e.offset] == before[e.offset..End(e)][0] == WideHeader(e.opcode);
    forall i | 0 <= i < |operands| ensures after[e.offset + 1..e.offset + 1 + |operands|][i] == operands[i] {
      assert before[e.offset + 1 + i] == before[e.offset..End(e)][1 + i] == e.operands[i];
    }
    assert after[e.offset + 1..e.offset + 1 + |operands|] == operands;
    WideDecodes(after, e.offset, e.opcode, operands);
  }

  lemma InstructionDecodes(before: seq<Word>, after: seq<Word>, emitted: seq<Emitted>, patches: seq<JumpPatch>,
                           owner: seq<nat>, labels: seq<Option<Word>>, k: nat)
    requires Laid(before, emitted) && PatchesMatch(emitted, patches, owner, |labels|)
    requires Patched(before, after, patches, labels, |patches|) && k < |emitted| && WellFormed(emitted[k])
    ensures Bound(emitted[k], labels)
    ensures var d := Decode(after, emitted[k].offset);
      && d.Ok? && d.instruction.opcode == emitted[k].opcode
      && d.instruction.operands == Padded(Resolved(emitted[k], labels)) && emitted[k].offset + d.instruction.length == End(emitted[k])
  {
    hide OperandCount, Form, Decode;
    var e := emitted[k];
    forall w | e.offset <= w < End(e) && after[w] != before[w]
      ensures e.target.Some? && w == e.offset + 1 + e.target.value.index
    {
      ChangedWordIsTarget(before, after, emitted, patches, owner, labels, k, w);
    }
    assert Placed(before, e);
    if e.target.None? {
      PlainDecodes(before, after, e);
    } else {
      assert patches[e.target.value.patch] == JumpPatch(e.target.value.labelId, e.offset + 1 + e.target.value.index);
      JumpDecodes(before, after, e, labels);
    }
  }

  /** Patching every recorded target turns the emitted forms into a stream that decodes to what was emitted. */
  lemma FinishedDecodes(before: seq<Word>, after: seq<Word>, emitted: seq<Emitted>, patches: seq<JumpPatch>,
                        owner: seq<nat>, labels: seq<Option<Word>>)
    requires Laid(before, emitted) && PatchesMatch(emitted, patches, owner, |labels|)
    requires Patched(before, after, patches, labels, |patches|)
    ensures DecodesTo(after, emitted, labels)
  {
    hide OperandCount, Form, Decode, PatchesMatch, Patched, Padded, Resolved;
    SameLength(before, after, patches, labels);
    forall k | 0 <= k < |emitted| ensures DecodesAt(after, emitted, labels, k) {
      assert Placed(before, emitted[k]);
      InstructionDecodes(before, after, emitted, patches, owner, labels, k);
      if k + 1 < |emitted| {
        assert emitted[k + 1].offset == End(emitted[k + 1 - 1]);
      }
    }
  }

  lemma SameLength(before: seq<Word>, after: seq<Word>, patches: seq<JumpPatch>, labels: seq<Option<Word>>)
    requires Patched(before, after, patches, labels, |patches|)
    ensures |after| == |before|
  {
  }

  /** Retained source-map offsets are strictly increasing instruction starts. */
  lemma SourceMapIncreases(words: seq<Word>, emitted: seq<Emitted>, labels: seq<Option<Word>>, sourceMap: seq<SourceMapEntry>,
                           j: nat, k: nat)
    requires DecodesTo(words, emitted, labels) && SourceMapMatches(emitted, sourceMap) && j < k < |sourceMap|
    ensures sourceMap[j].offset < sourceMap[k].offset < |words|
    decreases k - j
  {
    hide OperandCount, Padded, Resolved, Bound, WellFormed;
    assert DecodesAt(words, emitted, labels, j) && DecodesAt(words, emitted, labels, k);
    if j + 1 < k {
      SourceMapIncreases(words, emitted, labels, sourceMap, j + 1, k);
    }
  }

  // ----- The builder -----

  /** A register whose index has no 32-bit successor. */
  predicate NotesOverflow(op: Opcode, operands: seq<Word>)
    requires |operands| <= 3
  {
    exists i :: 0 <= i < |RoleRegisters(NotedRole(op), Padded(operands))| && RoleRegisters(NotedRole(op), Padded(operands))[i] >= MAX_U32
  }

  /** Exactly when `Emit` refuses, and why; otherwise it must succeed. */
  ghost function EmitRefusal(length: nat, op: Opcode, operands: seq<Word>): Option<BuilderError> {
    if |operands| != OperandCount(op) then Some(WrongOperands)
    else if length + |Encode(op, operands)| > MAX_U32 then Some(CodeSizeOverflow)
    else if NotesOverflow(op, operands) then Some(RegisterCountOverflow)
    else None
  }

  /** Exactly when a jump emitter refuses, and why. */
  function JumpRefusal(length: nat, labelCount: nat, op: Opcode, operands: seq<Word>, labelId: nat): Option<BuilderError>
    requires |operands| <= 3
  {
    if labelId >= labelCount then Some(InvalidLabel)
    else if NotesOverflow(op, operands) then Some(RegisterCountOverflow)
    else if length + 1 + |operands| > MAX_U32 then Some(CodeSizeOverflow)
    else None
  }

  /** Jumps without a condition note no register. */
  lemma JumpsNoteNothing(op: Opcode, operands: seq<Word>)
    requires op in {JUMP, BREAK_THROUGH_FINALLY, CONTINUE_THROUGH_FINALLY} && |operands| <= 3
    ensures !NotesOverflow(op, operands) && Noted(op, operands) == {}
  {
  }

  /** A conditional jump notes its condition alone. */
  lemma ConditionNoted(op: Opcode, condition: Word)
    requires op in {JUMP_IF_FALSE, JUMP_IF_TRUE, JUMP_IF_NOT_NULLISH}
    ensures NotesOverflow(op, [condition, 0]) <==> condition == MAX_U32
    ensures Noted(op, [condition, 0]) == {condition as nat}
  {
    assert RoleRegisters(NotedRole(op), Padded([condition, 0])) == [condition];
    if condition == MAX_U32 {
      assert RoleRegisters(NotedRole(op), Padded([condition, 0]))[0] >= MAX_U32;
    }
  }

  class Builder {
    var words: seq<Word>
    var labels: seq<Option<Word>>
    var patches: seq<JumpPatch>
    var sourceMap: seq<SourceMapEntry>
    var registerCount: nat
    ghost var emitted: seq<Emitted>
    ghost var owner: seq<nat>
    ghost var refused: set<nat>

    /** What every sequence of builder calls keeps. */
    ghost predicate Valid()
      reads this
    {
      ValidCode() && CountNeeded(emitted, refused, registerCount)
    }

    ghost predicate ValidCode()
      reads this
    {
      && |words| <= MAX_U32 && registerCount <= MAX_U32
      && Laid(words, emitted)
      && LabelsAtBoundaries(words, emitted, labels)
      && PatchesMatch(emitted, patches, owner, |labels|)
      && SourceMapMatches(emitted, sourceMap)
      && RegistersCovered(emitted, registerCount)
    }

    constructor ()
      ensures Valid() && emitted == [] && labels == [] && refused == {} && registerCount == 0
    {
      words, labels, patches, sourceMap, registerCount := [], [], [], [], 0;
      emitted, owner, refused := [], [], {};
    }

    method NewLabel() returns (result: Option<nat>)
      requires Valid()
      modifies this`labels
      ensures Valid()
      ensures result.None? <==> |old(labels)| > MAX_U32
      ensures result.None? ==> labels == old(labels)
      ensures result.Some? ==> result.value == |old(labels)| && labels == old(labels) + [None]
    {
      hide Laid, SourceMapMatches, RegistersCovered, Boundary, CountNeeded;
      if |labels| > MAX_U32 { return None; }
      result := Some(|labels|);
      labels := labels + [None];
    }

    /** Binds a label to the next instruction boundary, once. */
    method BindLabel(l: nat) returns (error: Option<BuilderError>)
      requires Valid()
      modifies this`labels
      ensures Valid()
      ensures error == if l >= |old(labels)| then Some(InvalidLabel)
                       else if old(labels)[l].Some? then Some(LabelAlreadyBound) else None
      ensures error.None? ==> l < |old(labels)| && |words| <= MAX_U32 && labels == old(labels)[l := Some(|words|)]
      ensures error.Some? ==> labels == old(labels)
    {
      hide Laid, SourceMapMatches, RegistersCovered, PatchesMatch, CountNeeded;
      if l >= |labels| { return Some(InvalidLabel); }
      if labels[l].Some? { return Some(LabelAlreadyBound); }
      assert Boundary(words, emitted, |words|);
      labels := labels[l := Some(|words|)];
      return None;
    }

    method NoteRegisters(registers: seq<nat>) returns (overflow: bool)
      requires registerCount <= MAX_U32
      modifies this`registerCount
      ensures old(registerCount) <= registerCount <= MAX_U32
      ensures !overflow ==> AllBelowCount(registers, registerCount)
      ensures overflow <==> exists i :: 0 <= i < |registers| && registers[i] >= MAX_U32
      ensures registerCount == old(registerCount) || exists r :: r in registers && registerCount == r + 1
    {
      for i := 0 to |registers|
        invariant old(registerCount) <= registerCount <= MAX_U32
        invariant registerCount == old(registerCount) || exists r :: r in registers && registerCount == r + 1
        invariant forall j | 0 <= j < i :: registers[j] < MAX_U32 && registers[j] < registerCount
      {
        if registers[i] + 1 > MAX_U32 { return true; }
        if registerCount < registers[i] + 1 {
          registerCount := registers[i] + 1;
          assert registers[i] in registers;
        }
      }
      return false;
    }

    /** Appends one instruction whose words and registers are already checked. */
    method Append(code: seq<Word>, span: SourceSpan, ghost e: Emitted)
      requires ValidCode() && CountNeeded(emitted + [e], refused, registerCount)
      requires WellFormed(e) && e.offset == |words| && code == Form(e) && |code| >= 1
      requires e.target.None? && |words| + |code| <= MAX_U32
      requires RegistersNoted(e.opcode, Padded(e.operands), registerCount)
      modifies this`words, this`sourceMap, this`emitted
      ensures Valid() && emitted == old(emitted) + [e] && words == old(words) + code
      ensures sourceMap == old(sourceMap) + [SourceMapEntry(|old(words)|, span)]
    {
      hide Laid, RegistersCovered, PatchesMatch, Form, WellFormed, LabelsAtBoundaries, CountNeeded;
      LaidAppend(words, emitted, e, code);
      LabelsAppend(words, emitted, labels, e, code);
      PatchesAppend(emitted, patches, owner, |labels|, e);
      RegistersAppend(emitted, registerCount, registerCount, e);
      sourceMap := sourceMap + [SourceMapEntry(|words|, span)];
      words := words + code;
      emitted := emitted + [e];
    }

    /** Appends a placeholder jump and the patch that will fill it. */
    method AppendJump(code: seq<Word>, span: SourceSpan, labelId: nat, index: nat, ghost e: Emitted)
      requires ValidCode() && CountNeeded(emitted + [e], refused, registerCount)
      requires WellFormed(e) && e.offset == |words| && code == Form(e) && |code| >= 1
      requires e.target == Some(Target(labelId, index, |patches|)) && labelId < |labels| && |words| + |code| <= MAX_U32
      requires RegistersNoted(e.opcode, Padded(e.operands), registerCount)
      modifies this`words, this`sourceMap, this`emitted, this`patches, this`owner
      ensures Valid() && emitted == old(emitted) + [e] && words == old(words) + code
      ensures patches == old(patches) + [JumpPatch(labelId, |old(words)| + 1 + index)]
      ensures sourceMap == old(sourceMap) + [SourceMapEntry(|old(words)|, span)]
    {
      hide Laid, RegistersCovered, PatchesMatch, Form, WellFormed, LabelsAtBoundaries, CountNeeded;
      LaidAppend(words, emitted, e, code);
      LabelsAppend(words, emitted, labels, e, code);
      PatchesAppend(emitted, patches, owner, |labels|, e);
      RegistersAppend(emitted, registerCount, registerCount, e);
      patches := patches + [JumpPatch(labelId, |words| + 1 + index)];
      sourceMap := sourceMap + [SourceMapEntry(|words|, span)];
      words := words + code;
      owner := owner + [|emitted|];
      emitted := emitted + [e];
    }

    /** One instruction without a label, encoded as compactly as its operands allow. */
    method Emit(op: Opcode, operands: seq<Word>, span: SourceSpan) returns (error: Option<BuilderError>)
      requires Valid()
      modifies this
      ensures Valid() && labels == old(labels) && patches == old(patches)
      ensures error.Some? ==> emitted == old(emitted) && words == old(words) && sourceMap == old(sourceMap)
      ensures error.None? ==>
        && emitted == old(emitted) + [Emitted(|old(words)|, op, operands, None)]
        && sourceMap == old(sourceMap) + [SourceMapEntry(|old(words)|, span)]
      ensures error == EmitRefusal(|old(words)|, op, operands)
      ensures error != Some(RegisterCountOverflow) ==> refused == old(refused)
      ensures |operands| <= 3 ==> old(refused) <= refused <= old(refused) + Noted(op, operands)
    {
      hide OperandCount, Laid, RegistersCovered, PatchesMatch, LabelsAtBoundaries, SourceMapMatches, NotedRole, RoleRegisters,
        CountNeeded;
      var encoded := EncodeInstruction(op, operands);
      if encoded.WrongOperandCount? { return Some(WrongOperands); }
      EncodingFits(op, operands);
      var code: seq<Word> := encoded.words;
      if |words| + |code| > MAX_U32 { return Some(CodeSizeOverflow); }
      var overflow := NoteRegisters(RoleRegisters(NotedRole(op), Padded(operands)));
      RegistersCoveredMonotone(emitted, old(registerCount), registerCount);
      CountNewlyNeeded(emitted, refused, old(registerCount), registerCount, Emitted(|words|, op, operands, None));
      if overflow {
        refused := refused + Noted(op, operands);
        return Some(RegisterCountOverflow);
      }
      Append(code, span, Emitted(|words|, op, operands, None));
      return None;
    }

    /** Emits a full-width unconditional jump whose target word is filled at the end. */
    method EmitJump(labelId: nat, span: SourceSpan) returns (error: Option<BuilderError>)
      requires Valid()
      modifies this
      ensures Valid() && labels == old(labels)
      ensures error.Some? ==> emitted == old(emitted)
      ensures error.None? ==> emitted == old(emitted) + [Emitted(|old(words)|, JUMP, [0], Some(Target(labelId, 0, |old(patches)|)))]
      ensures sourceMap == old(sourceMap) + if error.None? then [SourceMapEntry(|old(words)|, span)] else []
      ensures error.Some? ==> words == old(words) && patches == old(patches)
      ensures refused == old(refused)
      ensures error == if labelId >= |labels| then Some(InvalidLabel)
                       else if |old(words)| + 2 > MAX_U32 then Some(CodeSizeOverflow) else None
    {
      hide Laid, RegistersCovered, PatchesMatch, LabelsAtBoundaries, SourceMapMatches, NotesOverflow, CountNeeded, Noted;
      JumpsNoteNothing(JUMP, [0]);
      error := EmitTarget(JUMP, [0], labelId, 0, span);
    }

    /** Emits a break or continue with its restored environment depth. */
    method EmitAbruptJump(op: Opcode, labelId: nat, environmentDepth: Word, span: SourceSpan) returns (error: Option<BuilderError>)
      requires Valid() && (op == BREAK_THROUGH_FINALLY || op == CONTINUE_THROUGH_FINALLY)
      modifies this
      ensures Valid() && labels == old(labels)
      ensures error.Some? ==> emitted == old(emitted)
      ensures error.None? ==>
        emitted == old(emitted) + [Emitted(|old(words)|, op, [0, environmentDepth], Some(Target(labelId, 0, |old(patches)|)))]
      ensures sourceMap == old(sourceMap) + if error.None? then [SourceMapEntry(|old(words)|, span)] else []
      ensures error.Some? ==> words == old(words) && patches == old(patches)
      ensures refused == old(refused)
      ensures error == if labelId >= |labels| then Some(InvalidLabel)
                       else if |old(words)| + 3 > MAX_U32 then Some(CodeSizeOverflow) else None
    {
      hide OperandCount, Laid, RegistersCovered, PatchesMatch, LabelsAtBoundaries, SourceMapMatches, NotesOverflow, CountNeeded, Noted;
      JumpOperandCounts();
      JumpsNoteNothing(op, [0, environmentDepth]);
      error := EmitTarget(op, [0, environmentDepth], labelId, 0, span);
    }

    /** Emits a conditional jump on a register. */
    method EmitConditionalJump(op: Opcode, condition: Word, labelId: nat, span: SourceSpan) returns (error: Option<BuilderError>)
      requires Valid() && (op == JUMP_IF_FALSE || op == JUMP_IF_TRUE || op == JUMP_IF_NOT_NULLISH)
      modifies this
      ensures Valid() && labels == old(labels)
      ensures error.Some? ==> emitted == old(emitted)
      ensures error.None? ==>
        emitted == old(emitted) + [Emitted(|old(words)|, op, [condition, 0], Some(Target(labelId, 1, |old(patches)|)))]
      ensures sourceMap == old(sourceMap) + if error.None? then [SourceMapEntry(|old(words)|, span)] else []
      ensures error.Some? ==> words == old(words) && patches == old(patches)
      ensures old(refused) <= refused <= old(refused) + if error.None? then {} else {condition as nat}
      ensures error == if labelId >= |labels| then Some(InvalidLabel)
                       else if condition == MAX_U32 then Some(RegisterCountOverflow)
                       else if |old(words)| + 3 > MAX_U32 then Some(CodeSizeOverflow) else None
    {
      hide OperandCount, Laid, RegistersCovered, PatchesMatch, LabelsAtBoundaries, SourceMapMatches, NotesOverflow, CountNeeded, Noted;
      JumpOperandCounts();
      ConditionNoted(op, condition);
      error := EmitTarget(op, [condition, 0], labelId, 1, span);
    }

    /** The shared tail of the three jump emitters: label check, registers, capacity, words, patch. */
    method EmitTarget(op: Opcode, operands: seq<Word>, labelId: nat, index: nat, span: SourceSpan)
      returns (error: Option<BuilderError>)
      requires Valid() && |operands| == OperandCount(op) && index < |operands|
      modifies this
      ensures Valid() && labels == old(labels)
      ensures error.Some? ==> emitted == old(emitted) && words == old(words) && patches == old(patches)
      ensures error.None? ==> emitted == old(emitted) + [Emitted(|old(words)|, op, operands, Some(Target(labelId, index, |old(patches)|)))]
      ensures error == JumpRefusal(|old(words)|, |labels|, op, operands, labelId)
      ensures sourceMap == old(sourceMap) + if error.None? then [SourceMapEntry(|old(words)|, span)] else []
      ensures error.None? ==> refused == old(refused)
      ensures |operands| <= 3 && old(refused) <= refused <= old(refused) + Noted(op, operands)
    {
      hide OperandCount, Laid, RegistersCovered, PatchesMatch, LabelsAtBoundaries, SourceMapMatches, NotedRole, RoleRegisters,
        WideHeader, CountNeeded;
      if labelId >= |labels| { return Some(InvalidLabel); }
      var overflow := NoteRegisters(RoleRegisters(NotedRole(op), Padded(operands)));
      RegistersCoveredMonotone(emitted, old(registerCount), registerCount);
      CountNewlyNeeded(emitted, refused, old(registerCount), registerCount,
                       Emitted(|words|, op, operands, Some(Target(labelId, index, |patches|))));
      if overflow {
        refused := refused + Noted(op, operands);
        return Some(RegisterCountOverflow);
      }
      WideHeaderFits(op);
      var code: seq<Word> := [WideHeader(op)] + operands;
      if |words| + |code| > MAX_U32 {
        refused := refused + Noted(op, operands);
        return Some(CodeSizeOverflow);
      }
      AppendJump(code, span, labelId, index, Emitted(|words|, op, operands, Some(Target(labelId, index, |patches|))));
      return None;
    }

    /**
     * Resolves every label. On success the words decode to the emitted instructions with each symbolic
     * target replaced by its label's offset, and every bound label is an instruction boundary or the end.
     */
    method Finish() returns (error: Option<BuilderError>)
      requires Valid()
      modifies this`words
      ensures error.None? ==> DecodesTo(words, emitted, labels) && |words| == |old(words)|
      ensures error.None? ==> LabelsAtBoundaries(words, emitted, labels)
      ensures error.None? ==> Patched(old(words), words, patches, labels, |patches|)
      ensures error.None? ==> RegistersCovered(emitted, registerCount) && SourceMapMatches(emitted, sourceMap)
      ensures CountNeeded(emitted, refused, registerCount)
      ensures error.Some? <==> exists q :: 0 <= q < |patches| && patches[q].labelId < |labels| && labels[patches[q].labelId].None?
    {
      hide OperandCount, Laid, RegistersCovered, LabelsAtBoundaries, SourceMapMatches, DecodesTo, CountNeeded;
      PatchWordsInside(words, emitted, patches, owner, labels);
      for i := 0 to |patches|
        invariant Patched(old(words), words, patches, labels, i)
        invariant forall q | 0 <= q < i :: labels[patches[q].labelId].Some?
      {
        var target := labels[patches[i].labelId];
        if target.None? { return Some(UnboundLabel); }
        words := words[patches[i].operandWord := target.value];
      }
      FinishedDecodes(old(words), words, emitted, patches, owner, labels);
      LabelsSameLength(old(words), words, emitted, labels);
      return None;
    }
  }

  lemma RegistersCoveredMonotone(emitted: seq<Emitted>, count: nat, count': nat)
    requires RegistersCovered(emitted, count) && count <= count'
    ensures RegistersCovered(emitted, count')
  {
    hide NotedRole, OperandCount;
    forall k | 0 <= k < |emitted|
      ensures WellFormed(emitted[k]) && RegistersNoted(emitted[k].opcode, Padded(emitted[k].operands), count')
    {
      assert RegistersNoted(emitted[k].opcode, Padded(emitted[k].operands), count);
    }
  }

  lemma JumpOperandCounts()
    ensures OperandCount(BREAK_THROUGH_FINALLY) == OperandCount(CONTINUE_THROUGH_FINALLY) == 2
    ensures OperandCount(JUMP_IF_FALSE) == OperandCount(JUMP_IF_TRUE) == OperandCount(JUMP_IF_NOT_NULLISH) == 2
  {
  }

  lemma WideHeaderFits(op: Opcode)
    ensures WideHeader(op) < 0x1_0000_0000
  {
  }

  /** Patches lie inside the code, name declared labels and touch pairwise different words. */
  lemma PatchWordsInside(words: seq<Word>, emitted: seq<Emitted>, patches: seq<JumpPatch>, owner: seq<nat>, labels: seq<Option<Word>>)
    requires Laid(words, emitted) && PatchesMatch(emitted, patches, owner, |labels|)
    ensures forall q | 0 <= q < |patches| :: patches[q].operandWord < |words| && patches[q].labelId < |labels|
    ensures forall p, q | 0 <= p < |patches| && 0 <= q < |patches| && patches[p].operandWord == patches[q].operandWord :: p == q
  {
    hide OperandCount;
    forall q | 0 <= q < |patches|
      ensures patches[q].operandWord < |words| && patches[q].labelId < |labels|
      ensures emitted[owner[q]].offset <= patches[q].operandWord < End(emitted[owner[q]])
    {
      PatchInside(words, emitted, patches, owner, labels, q);
    }
    forall p, q | 0 <= p < |patches| && 0 <= q < |patches| && patches[p].operandWord == patches[q].operandWord ensures p == q {
      SameInstruction(|words|, emitted, owner[p], owner[q], patches[p].operandWord);
    }
  }

  lemma PatchInside(words: seq<Word>, emitted: seq<Emitted>, patches: seq<JumpPatch>, owner: seq<nat>, labels: seq<Option<Word>>, q: nat)
    requires Laid(words, emitted) && PatchesMatch(emitted, patches, owner, |labels|) && q < |patches|
    ensures WellFormed(emitted[owner[q]])
    ensures patches[q].operandWord < |words| && patches[q].labelId < |labels|
    ensures emitted[owner[q]].offset <= patches[q].operandWord < End(emitted[owner[q]])
  {
    hide OperandCount;
    var k := owner[q];
    assert Placed(words, emitted[k]);
    assert patches[emitted[k].target.value.patch] == patches[q];
  }

  lemma LabelsSameLength(before: seq<Word>, after: seq<Word>, emitted: seq<Emitted>, labels: seq<Option<Word>>)
    requires LabelsAtBoundaries(before, emitted, labels) && |after| == |before|
    ensures LabelsAtBoundaries(after, emitted, labels)
  {
    forall l | 0 <= l < |labels| && labels[l].Some? ensures Boundary(after, emitted, labels[l].value) {
      assert Boundary(before, emitted, labels[l].value);
    }
  }
}
