/** The encoder and the checked decoder as they run, proved to compute `Encode` and `Decode`. */
module BytecodeCodec {
  import opened BytecodeEncoding

  datatype EncodeResult = Encoded(words: seq<nat>) | WrongOperandCount(expected: nat, actual: nat)

  method AllBelow(operands: seq<Word>, bound: nat) returns (fits: bool)
    ensures fits <==> Fits(operands, bound)
  {
    for i := 0 to |operands|
      invariant forall j | 0 <= j < i :: operands[j] < bound
    {
      if operands[i] >= bound { return false; }
    }
    return true;
  }

  method EncodeInstruction(op: Opcode, operands: seq<Word>) returns (result: EncodeResult)
    ensures result.WrongOperandCount? <==> |operands| != OperandCount(op)
    ensures |operands| == OperandCount(op) ==> result == Encoded(Encode(op, operands))
  {
    hide OperandCount;
    if |operands| != OperandCount(op) {
      return WrongOperandCount(OperandCount(op), |operands|);
    }
    if op >= BASE_OPCODE_COUNT {
      return Encoded([EscapeHeader(op)] + operands);
    }
    var compact := AllBelow(operands, 0x100);
    if compact {
      var word: nat := op;
      for i := 0 to |operands|
        invariant word == CompactWord(op, operands[..i])
      {
        ByteAdded(op, operands, i);
        word := word + operands[i] * ByteWeight(i + 1);
      }
      assert operands[..|operands|] == operands;
      return Encoded([word]);
    }
    var normal := AllBelow(operands, 0x1_0000);
    if normal {
      var words: seq<nat> := [NORMAL_FORMAT * 64 + op];
      var i := 0;
      while i < |operands|
        invariant 0 <= i <= |operands|
        invariant words + PackedPairs(operands[i..]) == [NORMAL_FORMAT * 64 + op] + PackedPairs(operands)
      {
        var low: nat := operands[i];
        if i + 1 < |operands| {
          var high: nat := operands[i + 1];
          assert operands[i..][2..] == operands[i + 2..];
          words, i := words + [low + high * 0x1_0000], i + 2;
        } else {
          assert operands[|operands|..] == [];
          words, i := words + [low], i + 1;
        }
      }
      return Encoded(words);
    }
    return Encoded([WIDE_FORMAT * 64 + op] + operands);
  }

  lemma ByteAdded(op: Opcode, operands: seq<Word>, i: nat)
    requires i < |operands| <= 3
    ensures CompactWord(op, operands[..i + 1]) == CompactWord(op, operands[..i]) + operands[i] * ByteWeight(i + 1)
  {
  }

  method DecodeInstruction(words: seq<Word>, start: nat) returns (decoded: Decoded)
    ensures decoded == Decode(words, start)
  {
    hide OperandCount, FullWidth, NormalWidth, CompactOperands;
    if start >= |words| { return Truncated; }
    var header := words[start];
    var format := header % 256 / 64;
    if OpcodeOf(header) >= OPCODE_COUNT { return InvalidOpcode; }
    var op: Opcode := OpcodeOf(header);
    if format == ESCAPE_FORMAT {
      decoded := DecodeFullWidth(words, start, op);
      return;
    }
    if format != COMPACT_FORMAT && header / 256 != 0 { return NonZeroReservedBits; }
    match format {
      case 0 => decoded := DecodeCompact(header, op);
      case 1 => decoded := DecodeNormal(words, start, op);
      case _ => decoded := DecodeFullWidth(words, start, op);
    }
  }

  method DecodeCompact(header: Word, op: Opcode) returns (decoded: Decoded)
    ensures decoded == Ok(Instruction(op, Compact, Padded(CompactOperands(header, OperandCount(op))), 1))
  {
    hide OperandCount;
    var n := OperandCount(op);
    var operands: seq<Word> := [0, 0, 0];
    for i := 0 to n
      invariant |operands| == 3
      invariant forall j | 0 <= j < 3 :: operands[j] == if j < i then ByteOf(header, j + 1) else 0
    {
      operands := operands[i := ByteOf(header, i + 1)];
    }
    assert operands == Padded(CompactOperands(header, n));
    return Ok(Instruction(op, Compact, operands, 1));
  }

  method DecodeNormal(words: seq<Word>, start: nat, op: Opcode) returns (decoded: Decoded)
    requires start < |words|
    ensures decoded == NormalWidth(words, start, op)
  {
    hide OperandCount;
    var n := OperandCount(op);
    var data := (n + 1) / 2;
    if |words| - start < 1 + data { return Truncated; }
    var operands: seq<Word> := [0, 0, 0];
    for i := 0 to n
      invariant |operands| == 3
      invariant forall j | 0 <= j < 3 :: operands[j] == if j < i then Half(words[start + 1 + j / 2], j) else 0
    {
      operands := operands[i := Half(words[start + 1 + i / 2], i)];
    }
    assert operands == Padded(NormalOperands(words, start, n));
    if n % 2 == 1 && words[start + data] / 0x1_0000 != 0 { return NonZeroReservedBits; }
    return Ok(Instruction(op, Normal, operands, 1 + data));
  }

  /** Wide base instructions and escaped ones store one word per operand. */
  method DecodeFullWidth(words: seq<Word>, start: nat, op: Opcode) returns (decoded: Decoded)
    requires start < |words|
    ensures decoded == FullWidth(words, start, op)
  {
    hide OperandCount;
    var n := OperandCount(op);
    if |words| - start < 1 + n { return Truncated; }
    var operands: seq<Word> := [0, 0, 0];
    for i := 0 to n
      invariant |operands| == 3
      invariant forall j | 0 <= j < 3 :: operands[j] == if j < i then words[start + 1 + j] else 0
    {
      operands := operands[i := words[start + 1 + i]];
    }
    assert operands == Padded(words[start + 1..start + 1 + n]);
    return Ok(Instruction(op, Wide, operands, 1 + n));
  }
}
