/** Word encodings of instructions: the encoder, the checked decoder and the unchecked fast decoder. */
module BytecodeEncoding {
  type Word = w: nat | w < 0x1_0000_0000

  /** Semantic opcodes in their dense numbering. */
  const OPCODE_COUNT: nat := 146
  const BASE_OPCODE_COUNT: nat := 64
  type Opcode = o: nat | o < 146

  // Control-flow opcodes.
  const JUMP: Opcode := 9
  const JUMP_IF_FALSE: Opcode := 10
  const RETURN: Opcode := 11
  const THROW: Opcode := 12
  const JUMP_IF_TRUE: Opcode := 24
  const JUMP_IF_NOT_NULLISH: Opcode := 25
  const RETURN_UNDEFINED: Opcode := 46
  const ENTER_FINALLY: Opcode := 70
  const RESUME_COMPLETION: Opcode := 71
  const BREAK_THROUGH_FINALLY: Opcode := 72
  const CONTINUE_THROUGH_FINALLY: Opcode := 73

  // The two top bits of the header byte select the format.
  const COMPACT_FORMAT: nat := 0
  const NORMAL_FORMAT: nat := 1
  const WIDE_FORMAT: nat := 2
  const ESCAPE_FORMAT: nat := 3

  function OperandCount(op: Opcode): (n: nat)
    ensures n <= 3
  {
    match op
    case 0 | 46 | 70 | 71 | 105 | 135 | 143 => 0
    case 9 | 11 | 12 | 19 | 20 | 21 | 22 | 27 | 31 | 33 | 34 | 39 | 66 | 69 | 86 | 89 | 90 | 92 | 100 | 103 | 110 |
      125 | 126 | 133 => 1
    case 1 | 2 | 3 | 10 | 14 | 15 | 16 | 23 | 24 | 25 | 26 | 38 | 41 | 44 | 45 | 47 | 48 | 63 | 67 | 68 | 72 | 73 |
      76 | 82 | 83 | 85 | 93 | 96 | 101 | 104 | 106 | 111 | 137 | 138 | 139 | 141 | 142 | 145 => 2
    case _ => 3
  }

  datatype Width = Compact | Normal | Wide

  /** `operands` always has three entries; those past `OperandCount(opcode)` are zero. */
  datatype Instruction = Instruction(opcode: Opcode, width: Width, operands: seq<Word>, length: nat)

  datatype Decoded = Ok(instruction: Instruction) | InvalidOpcode | Truncated | NonZeroReservedBits

  function Padded(operands: seq<Word>): (p: seq<Word>)
    requires |operands| <= 3
    ensures |p| == 3
  {
    operands + seq(3 - |operands|, _ => 0)
  }

  ghost predicate Fits(operands: seq<Word>, bound: nat) {
    forall i | 0 <= i < |operands| :: operands[i] < bound
  }

  /** 256 to the power `i`: the weight of byte `i` of a word. */
  function ByteWeight(i: nat): nat
    requires i <= 3
  {
    if i == 0 then 1 else if i == 1 then 0x100 else if i == 2 then 0x1_0000 else 0x100_0000
  }

  function OperandAt(operands: seq<Word>, i: nat): Word { if i < |operands| then operands[i] else 0 }

  // ----- Encoding -----

  function CompactWord(op: Opcode, operands: seq<Word>): nat
    requires |operands| <= 3
  {
    op + OperandAt(operands, 0) * ByteWeight(1) + OperandAt(operands, 1) * ByteWeight(2) + OperandAt(operands, 2) * ByteWeight(3)
  }

  function PackedPairs(operands: seq<Word>): seq<nat> {
    if |operands| == 0 then []
    else if |operands| == 1 then [operands[0]]
    else
      var low: nat, high: nat := operands[0], operands[1];
      [low + high * 0x1_0000] + PackedPairs(operands[2..])
  }

  function EscapeHeader(op: Opcode): nat
    requires op >= BASE_OPCODE_COUNT
  {
    ESCAPE_FORMAT * 64 + (op - BASE_OPCODE_COUNT) % 64 + (op - BASE_OPCODE_COUNT) / 64 * 256
  }

  /** The smallest lossless form; extended opcodes always use the escape form. */
  ghost function Encode(op: Opcode, operands: seq<Word>): seq<nat>
    requires |operands| == OperandCount(op)
  {
    if op >= BASE_OPCODE_COUNT then [EscapeHeader(op)] + operands
    else if Fits(operands, 0x100) then [CompactWord(op, operands)]
    else if Fits(operands, 0x1_0000) then [NORMAL_FORMAT * 64 + op] + PackedPairs(operands)
    else [WIDE_FORMAT * 64 + op] + operands
  }

  lemma PackedPairsFit(operands: seq<Word>)
    requires |operands| <= 3 && Fits(operands, 0x1_0000)
    ensures |PackedPairs(operands)| == (|operands| + 1) / 2
    ensures forall i | 0 <= i < |PackedPairs(operands)| :: PackedPairs(operands)[i] < 0x1_0000_0000
  {
    if |operands| >= 2 {
      assert operands[0] < 0x1_0000 && operands[1] < 0x1_0000;
      PackedPairsFit(operands[2..]);
    }
  }

  /** Encodings are streams of 32-bit words, at most four of them. */
  lemma EncodingFits(op: Opcode, operands: seq<Word>)
    requires |operands| == OperandCount(op)
    ensures 1 <= |Encode(op, operands)| <= 4
    ensures forall i | 0 <= i < |Encode(op, operands)| :: Encode(op, operands)[i] < 0x1_0000_0000
  {
    hide OperandCount;
    if op < BASE_OPCODE_COUNT && Fits(operands, 0x1_0000) {
      PackedPairsFit(operands);
    }
  }

  // ----- Checked decoding -----

  function OpcodeOf(header: Word): (op: nat)
    ensures header % 256 / 64 != ESCAPE_FORMAT ==> op < BASE_OPCODE_COUNT
  {
    var base := header % 64;
    if header % 256 / 64 == ESCAPE_FORMAT then BASE_OPCODE_COUNT + header / 256 * 64 + base else base
  }

  function FullWidth(words: seq<Word>, start: nat, op: Opcode): Decoded
    requires start < |words|
  {
    var n := OperandCount(op);
    if |words| - start < 1 + n then Truncated
    else Ok(Instruction(op, Wide, Padded(words[start + 1..start + 1 + n]), 1 + n))
  }

  function Half(w: Word, i: nat): Word { if i % 2 == 0 then w % 0x1_0000 else w / 0x1_0000 }

  function NormalOperands(words: seq<Word>, start: nat, n: nat): seq<Word>
    requires n <= 3 && start + 1 + (n + 1) / 2 <= |words|
  {
    seq(n, i requires 0 <= i < n => Half(words[start + 1 + i / 2], i))
  }

  function NormalWidth(words: seq<Word>, start: nat, op: Opcode): Decoded
    requires start < |words|
  {
    var n := OperandCount(op);
    var data := (n + 1) / 2;
    if |words| - start < 1 + data then Truncated
    else if n % 2 == 1 && words[start + data] / 0x1_0000 != 0 then NonZeroReservedBits
    else Ok(Instruction(op, Normal, Padded(NormalOperands(words, start, n)), 1 + data))
  }

  function ByteOf(w: Word, i: nat): Word
    requires i <= 3
  {
    w / ByteWeight(i) % 256
  }

  function CompactOperands(header: Word, n: nat): seq<Word>
    requires n <= 3
  {
    seq(n, i requires 0 <= i < n => ByteOf(header, i + 1))
  }

  /** What the checked decoder returns at `start`. */
  function Decode(words: seq<Word>, start: nat): (d: Decoded)
    ensures d.Ok? ==> 1 <= d.instruction.length <= 4 && start + d.instruction.length <= |words|
    ensures d.Ok? ==> |d.instruction.operands| == 3
  {
    if start >= |words| then Truncated
    else
      var header := words[start];
      var format := header % 256 / 64;
      if OpcodeOf(header) >= OPCODE_COUNT then InvalidOpcode
      else
        var op: Opcode := OpcodeOf(header);
        if format == ESCAPE_FORMAT then FullWidth(words, start, op)
        else if format != COMPACT_FORMAT && header / 256 != 0 then NonZeroReservedBits
        else if format == COMPACT_FORMAT then
          Ok(Instruction(op, Compact, Padded(CompactOperands(header, OperandCount(op))), 1))
        else if format == NORMAL_FORMAT then NormalWidth(words, start, op)
        else FullWidth(words, start, op)
  }

  // ----- Round trip -----

  lemma CompactBytes(a: nat, b: nat, c: nat, d: nat)
    requires a < 64 && b < 256 && c < 256 && d < 256
    ensures var w := a + b * 0x100 + c * 0x1_0000 + d * 0x100_0000;
      w < 0x1_0000_0000 && w % 64 == a && w % 256 == a && w / 0x100 % 256 == b && w / 0x1_0000 % 256 == c && w / 0x100_0000 % 256 == d
  {
    var w := a + b * 0x100 + c * 0x1_0000 + d * 0x100_0000;
    LowByte(a, b + c * 0x100 + d * 0x1_0000);
    LowByte(b, c + d * 0x100);
    LowByte(c, d);
    assert w / 0x100 == b + c * 0x100 + d * 0x1_0000;
    assert w / 0x1_0000 == c + d * 0x100;
    assert w / 0x100_0000 == d;
  }

  lemma LowByte(low: nat, rest: nat)
    requires low < 256
    ensures (low + rest * 0x100) % 256 == low && (low + rest * 0x100) / 0x100 == rest
    ensures low < 64 ==> (low + rest * 0x100) % 64 == low
  {
  }

  lemma CompactRoundTrip(op: Opcode, operands: seq<Word>)
    requires op < BASE_OPCODE_COUNT && |operands| == OperandCount(op) && Fits(operands, 0x100)
    ensures CompactWord(op, operands) < 0x1_0000_0000
    ensures var w: Word := CompactWord(op, operands);
      w % 256 / 64 == COMPACT_FORMAT && OpcodeOf(w) == op && CompactOperands(w, |operands|) == operands
  {
    hide OperandCount;
    CompactBytes(op, OperandAt(operands, 0), OperandAt(operands, 1), OperandAt(operands, 2));
    var w := CompactWord(op, operands);
    forall i | 0 <= i < |operands| ensures ByteOf(w, i + 1) == operands[i] {
      assert OperandAt(operands, i) == operands[i];
    }
  }

  lemma HalvesOf(a: nat, b: nat)
    requires a < 0x1_0000 && b < 0x1_0000
    ensures (a + b * 0x1_0000) % 0x1_0000 == a && (a + b * 0x1_0000) / 0x1_0000 == b
  {
  }

  lemma PackedWords(operands: seq<Word>)
    requires |operands| <= 3
    ensures |operands| == 1 ==> |PackedPairs(operands)| == 1 && PackedPairs(operands)[0] == operands[0]
    ensures |operands| >= 2 ==>
      var low: nat, high: nat := operands[0], operands[1];
      |PackedPairs(operands)| >= 1 && PackedPairs(operands)[0] == low + high * 0x1_0000
    ensures |operands| == 3 ==> |PackedPairs(operands)| == 2 && PackedPairs(operands)[1] == operands[2]
  {
    if |operands| == 3 {
      assert PackedPairs(operands[2..]) == [operands[2]];
    }
  }

  lemma HalfTaken(operands: seq<Word>, w: Word, i: nat)
    requires i < |operands| <= 3 && Fits(operands, 0x1_0000)
    requires i < 2 <= |operands| ==> w == operands[0] + operands[1] * 0x1_0000
    requires i == 2 || |operands| == 1 ==> w == operands[i]
    ensures Half(w, i) == operands[i]
  {
    assert operands[i] < 0x1_0000;
    if i < 2 <= |operands| {
      assert operands[0] < 0x1_0000 && operands[1] < 0x1_0000;
      HalvesOf(operands[0], operands[1]);
    }
  }

  lemma HalvesUnpacked(words: seq<Word>, start: nat, operands: seq<Word>)
    requires |operands| <= 3 && Fits(operands, 0x1_0000) && start + 1 + (|operands| + 1) / 2 <= |words|
    requires |PackedPairs(operands)| == (|operands| + 1) / 2
    requires forall i | 0 <= i < (|operands| + 1) / 2 :: words[start + 1 + i] == PackedPairs(operands)[i]
    ensures NormalOperands(words, start, |operands|) == operands
    ensures |operands| % 2 == 1 ==> words[start + (|operands| + 1) / 2] < 0x1_0000
  {
    hide PackedPairs, Half;
    PackedWords(operands);
    forall i | 0 <= i < |operands| ensures Half(words[start + 1 + i / 2], i) == operands[i] {
      assert start + 1 + i / 2 == start + 1 + (if i == 2 then 1 else 0);
      HalfTaken(operands, words[start + 1 + i / 2], i);
    }
    if |operands| % 2 == 1 {
      assert words[start + 1 + |operands| / 2] == operands[|operands| - 1];
    }
  }

  lemma NormalRoundTrip(words: seq<Word>, start: nat, op: Opcode, operands: seq<Word>)
    requires |operands| == OperandCount(op) && Fits(operands, 0x1_0000)
    requires start + 1 + |PackedPairs(operands)| <= |words|
    requires words[start + 1..start + 1 + |PackedPairs(operands)|] == PackedPairs(operands)
    ensures NormalWidth(words, start, op) == Ok(Instruction(op, Normal, Padded(operands), 1 + |PackedPairs(operands)|))
  {
    hide OperandCount, PackedPairs, NormalOperands, Padded;
    PackedPairsFit(operands);
    var packed := PackedPairs(operands);
    forall i | 0 <= i < |packed| ensures words[start + 1 + i] == packed[i] {
      assert words[start + 1 + i] == words[start + 1..start + 1 + |packed|][i];
    }
    HalvesUnpacked(words, start, operands);
  }

  lemma EscapeHeaderDecodes(op: Opcode)
    requires op >= BASE_OPCODE_COUNT
    ensures EscapeHeader(op) < 0x1_0000_0000
    ensures EscapeHeader(op) % 256 / 64 == ESCAPE_FORMAT && OpcodeOf(EscapeHeader(op)) == op
  {
  }

  lemma TailOf(words: seq<Word>, start: nat, code: seq<nat>)
    requires start + |code| <= |words| && |code| > 0 && words[start..start + |code|] == code
    ensures words[start] == code[0] && words[start + 1..start + |code|] == code[1..]
  {
    assert words[start] == words[start..start + |code|][0];
    assert words[start + 1..start + |code|] == words[start..start + |code|][1..];
  }

  lemma FullRoundTrip(words: seq<Word>, start: nat, op: Opcode, operands: seq<Word>)
    requires |operands| == OperandCount(op) && start + 1 + |operands| <= |words|
    requires words[start + 1..start + 1 + |operands|] == operands
    ensures FullWidth(words, start, op) == Ok(Instruction(op, Wide, Padded(operands), 1 + |operands|))
  {
    hide OperandCount, Padded;
  }

  /** An encoded instruction decodes to itself at any position of any longer stream. */
  lemma RoundTrip(words: seq<Word>, start: nat, op: Opcode, operands: seq<Word>)
    requires |operands| == OperandCount(op)
    requires start + |Encode(op, operands)| <= |words|
    requires words[start..start + |Encode(op, operands)|] == Encode(op, operands)
    ensures var d := Decode(words, start);
      && d.Ok? && d.instruction.opcode == op && d.instruction.operands == Padded(operands)
      && d.instruction.length == |Encode(op, operands)|
  {
    hide OperandCount, Padded, PackedPairs, NormalWidth, FullWidth, EscapeHeader;
    EncodingFits(op, operands);
    TailOf(words, start, Encode(op, operands));
    if op >= BASE_OPCODE_COUNT {
      EscapeHeaderDecodes(op);
      FullRoundTrip(words, start, op, operands);
    } else if Fits(operands, 0x100) {
      CompactRoundTrip(op, operands);
    } else if Fits(operands, 0x1_0000) {
      PackedPairsFit(operands);
      NormalRoundTrip(words, start, op, operands);
    } else {
      FullRoundTrip(words, start, op, operands);
    }
  }

  lemma FullWidthLocal(words: seq<Word>, start: nat, words': seq<Word>, start': nat, op: Opcode)
    requires start < |words| && start' < |words'| && FullWidth(words, start, op).Ok?
    requires var n := FullWidth(words, start, op).instruction.length;
      start' + n <= |words'| && words'[start'..start' + n] == words[start..start + n]
    ensures FullWidth(words', start', op) == FullWidth(words, start, op)
  {
    hide OperandCount;
    var n := FullWidth(words, start, op).instruction.length;
    assert words'[start' + 1..start' + n] == words'[start'..start' + n][1..] == words[start + 1..start + n];
  }

  lemma NormalWidthLocal(words: seq<Word>, start: nat, words': seq<Word>, start': nat, op: Opcode)
    requires start < |words| && start' < |words'| && NormalWidth(words, start, op).Ok?
    requires var n := NormalWidth(words, start, op).instruction.length;
      start' + n <= |words'| && words'[start'..start' + n] == words[start..start + n]
    ensures NormalWidth(words', start', op) == NormalWidth(words, start, op)
  {
    hide OperandCount;
    var n := NormalWidth(words, start, op).instruction.length;
    if n > 1 { SliceAt(words, start, words', start', n, 1); }
    if n > 2 { SliceAt(words, start, words', start', n, 2); }
    assert NormalOperands(words', start', OperandCount(op)) == NormalOperands(words, start, OperandCount(op));
  }

  /** Decoding depends only on the words it consumes, wherever they stand. */
  lemma DecodeLocal(words: seq<Word>, start: nat, words': seq<Word>, start': nat)
    requires Decode(words, start).Ok?
    requires var n := Decode(words, start).instruction.length;
      start' + n <= |words'| && words'[start'..start' + n] == words[start..start + n]
    ensures Decode(words', start') == Decode(words, start)
  {
    hide OperandCount, NormalWidth, FullWidth, OpcodeOf;
    var n := Decode(words, start).instruction.length;
    SliceAt(words, start, words', start', n, 0);
    var header := words[start];
    if header % 256 / 64 == NORMAL_FORMAT {
      NormalWidthLocal(words, start, words', start', OpcodeOf(header));
    } else if header % 256 / 64 != COMPACT_FORMAT {
      FullWidthLocal(words, start, words', start', OpcodeOf(header));
    }
  }

  lemma SliceAt(words: seq<Word>, start: nat, words': seq<Word>, start': nat, n: nat, i: nat)
    requires i < n && start + n <= |words| && start' + n <= |words'|
    requires words'[start'..start' + n] == words[start..start + n]
    ensures words'[start' + i] == words[start + i]
  {
    assert words'[start' + i] == words'[start'..start' + n][i] && words[start + i] == words[start..start + n][i];
  }

  // ----- What decodes alike -----

  /** The compact form ignores the bytes its opcode does not use, so decoding is not injective. */
  lemma DecodeNotInjective()
    ensures Decode([0x00], 0) == Decode([0x100], 0)
  {
    assert [0x00 as Word][0] % 256 / 64 == 0 && [0x100 as Word][0] % 256 / 64 == 0;
  }

  predicate IsCompact(header: Word) { header % 256 / 64 == COMPACT_FORMAT }

  /** A compact header with `n` operands uses its `n + 1` low bytes. */
  function UsedPart(header: Word, n: nat): nat
    requires n <= 3
  {
    if n == 0 then header % 0x100 else if n == 1 then header % 0x1_0000 else if n == 2 then header % 0x100_0000 else header
  }

  lemma BytesUnique(a: nat, rest: nat, a': nat, rest': nat)
    requires a < 256 && a' < 256
    ensures a + rest * 0x100 == a' + rest' * 0x100 <==> a == a' && rest == rest'
  {
  }

  lemma DigitsUnique(a: nat, b: nat, c: nat, d: nat, a': nat, b': nat, c': nat, d': nat)
    requires a < 256 && b < 256 && c < 256 && a' < 256 && b' < 256 && c' < 256
    ensures a + b * 0x100 == a' + b' * 0x100 <==> a == a' && b == b'
    ensures a + (b + c * 0x100) * 0x100 == a' + (b' + c' * 0x100) * 0x100 <==> a == a' && b == b' && c == c'
    ensures a + (b + (c + d * 0x100) * 0x100) * 0x100 == a' + (b' + (c' + d' * 0x100) * 0x100) * 0x100
            <==> a == a' && b == b' && c == c' && d == d'
  {
    BytesUnique(a, b, a', b');
    BytesUnique(a, b + c * 0x100, a', b' + c' * 0x100);
    BytesUnique(b, c, b', c');
    BytesUnique(a, b + (c + d * 0x100) * 0x100, a', b' + (c' + d' * 0x100) * 0x100);
    BytesUnique(b, c + d * 0x100, b', c' + d' * 0x100);
    BytesUnique(c, d, c', d');
  }

  lemma LowBytes(w: Word)
    ensures UsedPart(w, 0) == ByteOf(w, 0) < 256 && ByteOf(w, 1) < 256 && ByteOf(w, 2) < 256
    ensures UsedPart(w, 1) == ByteOf(w, 0) + ByteOf(w, 1) * 0x100
    ensures UsedPart(w, 2) == ByteOf(w, 0) + (ByteOf(w, 1) + ByteOf(w, 2) * 0x100) * 0x100
    ensures UsedPart(w, 3) == ByteOf(w, 0) + (ByteOf(w, 1) + (ByteOf(w, 2) + ByteOf(w, 3) * 0x100) * 0x100) * 0x100
  {
    var a, b, c, d := w % 256, w / 0x100 % 256, w / 0x1_0000 % 256, w / 0x100_0000;
    assert w / 0x1_0000 == w / 0x100 / 0x100 && w / 0x100_0000 == w / 0x100 / 0x100 / 0x100;
    assert w == a + b * 0x100 + c * 0x1_0000 + d * 0x100_0000 && d < 256;
  }

  /** Equal used parts mean equal opcode bytes and equal used operand bytes, and conversely. */
  lemma UsedBytes(w: Word, v: Word, n: nat)
    requires n <= 3
    ensures UsedPart(w, n) == UsedPart(v, n) <==>
      (&& ByteOf(w, 0) == ByteOf(v, 0) && (n >= 1 ==> ByteOf(w, 1) == ByteOf(v, 1))
       && (n >= 2 ==> ByteOf(w, 2) == ByteOf(v, 2)) && (n >= 3 ==> ByteOf(w, 3) == ByteOf(v, 3)))
  {
    hide ByteOf, UsedPart;
    LowBytes(w);
    LowBytes(v);
    DigitsUnique(ByteOf(w, 0), ByteOf(w, 1), ByteOf(w, 2), ByteOf(w, 3),
                 ByteOf(v, 0), ByteOf(v, 1), ByteOf(v, 2), ByteOf(v, 3));
  }

  lemma CompactOperandsAlike(w: Word, v: Word, n: nat)
    requires n <= 3 && ByteOf(w, 0) == ByteOf(v, 0)
    ensures Padded(CompactOperands(w, n)) == Padded(CompactOperands(v, n)) <==> UsedPart(w, n) == UsedPart(v, n)
  {
    hide ByteOf, UsedPart;
    UsedBytes(w, v, n);
    var p, q := Padded(CompactOperands(w, n)), Padded(CompactOperands(v, n));
    assert forall i | n <= i < 3 :: p[i] == 0 && q[i] == 0;
    if p == q {
      assert n >= 1 ==> p[0] == q[0];
      assert n >= 2 ==> p[1] == q[1];
      assert n >= 3 ==> p[2] == q[2];
    }
  }

  /** Compact headers decode alike exactly when they agree on the bytes the opcode uses. */
  lemma CompactDecodesAlike(words: seq<Word>, start: nat, words': seq<Word>, start': nat)
    requires start < |words| && start' < |words'| && IsCompact(words[start]) && IsCompact(words'[start'])
    ensures var n := OperandCount(OpcodeOf(words[start]));
      Decode(words, start) == Decode(words', start') <==> UsedPart(words[start], n) == UsedPart(words'[start'], n)
  {
    hide OperandCount, CompactOperands, Padded, UsedPart, ByteOf;
    var w, v := words[start], words'[start'];
    var n := OperandCount(OpcodeOf(w));
    UsedOpcode(w, v, n);
    if OpcodeOf(w) == OpcodeOf(v) {
      CompactOperandsAlike(w, v, n);
    }
  }

  lemma BaseBits(header: Word)
    ensures header % 64 == header % 256 % 64
  {
  }

  /** Equal used parts share the opcode byte, which in compact form is the opcode. */
  lemma UsedOpcode(w: Word, v: Word, n: nat)
    requires n <= 3 && IsCompact(w) && IsCompact(v)
    ensures UsedPart(w, n) == UsedPart(v, n) ==> OpcodeOf(w) == OpcodeOf(v)
    ensures OpcodeOf(w) == OpcodeOf(v) <==> ByteOf(w, 0) == ByteOf(v, 0)
  {
    hide UsedPart, ByteOf, OpcodeOf;
    UsedBytes(w, v, n);
    CompactOpcode(w);
    CompactOpcode(v);
  }

  lemma CompactOpcode(w: Word)
    ensures IsCompact(w) ==> OpcodeOf(w) == ByteOf(w, 0)
  {
    BaseBits(w);
  }

  /** The words an instruction was decoded from. */
  function Consumed(words: seq<Word>, start: nat): seq<Word>
    requires Decode(words, start).Ok?
  {
    words[start..start + Decode(words, start).instruction.length]
  }

  /** The only words a normal, wide or escaped instruction can be decoded from. */
  ghost function Canonical(i: Instruction): seq<nat>
    requires |i.operands| == 3
  {
    var operands := i.operands[..OperandCount(i.opcode)];
    if i.width == Normal then [NORMAL_FORMAT * 64 + i.opcode] + PackedPairs(operands)
    else [if i.opcode >= BASE_OPCODE_COUNT then EscapeHeader(i.opcode) else WIDE_FORMAT * 64 + i.opcode] + operands
  }

  lemma HeaderParts(header: Word)
    ensures header == header % 256 / 64 * 64 + header % 64 + header / 256 * 256
  {
    BaseBits(header);
  }

  lemma HeaderDetermined(header: Word)
    requires OpcodeOf(header) < OPCODE_COUNT && !IsCompact(header)
    ensures header % 256 / 64 != ESCAPE_FORMAT && header / 256 == 0 ==> header == header % 256 / 64 * 64 + OpcodeOf(header)
    ensures header % 256 / 64 == ESCAPE_FORMAT ==>
      OpcodeOf(header) >= BASE_OPCODE_COUNT && header == EscapeHeader(OpcodeOf(header))
  {
    HeaderParts(header);
    if header % 256 / 64 == ESCAPE_FORMAT {
      EscapeParts(header / 256, header % 64);
    }
  }

  lemma EscapeParts(page: nat, base: nat)
    requires base < 64 && BASE_OPCODE_COUNT + page * 64 + base < OPCODE_COUNT
    ensures EscapeHeader(BASE_OPCODE_COUNT + page * 64 + base) == ESCAPE_FORMAT * 64 + base + page * 256
  {
  }

  lemma NormalDetermined(words: seq<Word>, start: nat, op: Opcode)
    requires start < |words| && NormalWidth(words, start, op).Ok?
    ensures var i := NormalWidth(words, start, op).instruction;
      words[start + 1..start + i.length] == PackedPairs(i.operands[..OperandCount(op)])
  {
    hide OperandCount;
    var n := OperandCount(op);
    var operands := NormalOperands(words, start, n);
    assert Padded(operands)[..n] == operands;
    if n >= 2 {
      assert words[start + 1] == operands[0] + operands[1] * 0x1_0000;
    }
    if n == 3 {
      assert PackedPairs(operands[2..]) == [operands[2]];
    }
  }

  lemma WordsDetermined(words: seq<Word>, start: nat)
    requires Decode(words, start).Ok? && !IsCompact(words[start])
    ensures Consumed(words, start) == Canonical(Decode(words, start).instruction)
  {
    hide OperandCount, NormalWidth, PackedPairs, EscapeHeader;
    var header, i := words[start], Decode(words, start).instruction;
    HeaderDetermined(header);
    assert Consumed(words, start) == [header] + words[start + 1..start + i.length];
    if header % 256 / 64 == NORMAL_FORMAT {
      NormalShape(words, start, OpcodeOf(header));
      NormalDetermined(words, start, OpcodeOf(header));
    } else {
      assert i.operands[..OperandCount(i.opcode)] == words[start + 1..start + i.length];
    }
  }

  lemma NormalShape(words: seq<Word>, start: nat, op: Opcode)
    requires start < |words| && NormalWidth(words, start, op).Ok?
    ensures var i := NormalWidth(words, start, op).instruction; i.opcode == op && i.width == Normal && 1 <= i.length
  {
  }

  /**
   * Exactly which words decode to the same instruction: compact headers that agree on their used part,
   * and otherwise only identical words.
   */
  lemma DecodesAlike(words: seq<Word>, start: nat, words': seq<Word>, start': nat)
    requires Decode(words, start).Ok? && Decode(words', start').Ok?
    ensures Decode(words, start) == Decode(words', start') <==>
      if IsCompact(words[start]) && IsCompact(words'[start'])
      then UsedPart(words[start], OperandCount(OpcodeOf(words[start])))
           == UsedPart(words'[start'], OperandCount(OpcodeOf(words[start])))
      else Consumed(words, start) == Consumed(words', start')
  {
    hide OperandCount, UsedPart, OpcodeOf, Canonical;
    if IsCompact(words[start]) && IsCompact(words'[start']) {
      CompactDecodesAlike(words, start, words', start');
    } else {
      CompactWidth(words, start);
      CompactWidth(words', start');
      if Consumed(words, start) == Consumed(words', start') {
        DecodeLocal(words, start, words', start');
      } else if Decode(words, start) == Decode(words', start') {
        WordsDetermined(words, start);
        WordsDetermined(words', start');
      }
    }
  }

  lemma CompactWidth(words: seq<Word>, start: nat)
    requires Decode(words, start).Ok?
    ensures Decode(words, start).instruction.width == Compact <==> IsCompact(words[start])
    ensures Consumed(words, start)[0] == words[start]
  {
    hide OperandCount;
  }

  // ----- What decodes at all -----

  /** An instruction as it may stand in a stream of its width: unused operands zero, every used one small enough. */
  ghost predicate WellShaped(i: Instruction) {
    && |i.operands| == 3 && (forall k | OperandCount(i.opcode) <= k < 3 :: i.operands[k] == 0)
    && (i.width == Normal ==> i.opcode < BASE_OPCODE_COUNT && Fits(i.operands, 0x1_0000))
    && i.width != Compact
  }

  lemma PaddedTake(operands: seq<Word>, n: nat)
    requires |operands| == 3 && n <= 3 && forall k | n <= k < 3 :: operands[k] == 0
    ensures Padded(operands[..n]) == operands
  {
  }

  lemma CanonicalHeader(i: Instruction)
    requires WellShaped(i)
    ensures |Canonical(i)| >= 1 && Canonical(i)[0] < 0x1_0000_0000
    ensures var h: Word := Canonical(i)[0];
      && OpcodeOf(h) == i.opcode
      && (h % 256 / 64 == ESCAPE_FORMAT <==> i.opcode >= BASE_OPCODE_COUNT)
      && (i.opcode < BASE_OPCODE_COUNT ==> h / 256 == 0 && h % 256 / 64 == if i.width == Normal then NORMAL_FORMAT else WIDE_FORMAT)
  {
    hide OperandCount;
    if i.opcode >= BASE_OPCODE_COUNT {
      EscapeHeaderDecodes(i.opcode);
    }
  }

  /** Every normal, wide or escaped form decodes, whether or not a shorter form would do. */
  lemma CanonicalDecodes(words: seq<Word>, start: nat, i: Instruction)
    requires WellShaped(i) && start + |Canonical(i)| <= |words| && words[start..start + |Canonical(i)|] == Canonical(i)
    ensures Decode(words, start) == Ok(i.(length := |Canonical(i)|))
  {
    hide OperandCount, PackedPairs, EscapeHeader, OpcodeOf;
    var n, code := OperandCount(i.opcode), Canonical(i);
    var operands := i.operands[..n];
    CanonicalHeader(i);
    PaddedTake(i.operands, n);
    assert words[start] == words[start..start + |code|][0] == code[0];
    assert words[start + 1..start + |code|] == words[start..start + |code|][1..] == code[1..];
    if i.width == Normal {
      NormalRoundTrip(words, start, i.opcode, operands);
    }
  }

  /** Every word with the compact format and every opcode byte below 64 is an instruction by itself. */
  lemma CompactDecodes(words: seq<Word>, start: nat)
    requires start < |words| && IsCompact(words[start])
    ensures Decode(words, start).Ok? && Decode(words, start).instruction.length == 1
  {
    hide OperandCount, CompactOperands;
  }

  /** No stream says the same in fewer words than the encoder uses. */
  lemma EncodeShortest(words: seq<Word>, start: nat)
    requires Decode(words, start).Ok?
    ensures var i := Decode(words, start).instruction;
      var operands := i.operands[..OperandCount(i.opcode)];
      |Encode(i.opcode, operands)| <= i.length
  {
    hide OperandCount, PackedPairs, EscapeHeader;
    var i := Decode(words, start).instruction;
    var operands := i.operands[..OperandCount(i.opcode)];
    if i.opcode < BASE_OPCODE_COUNT && Fits(operands, 0x1_0000) {
      PackedPairsFit(operands);
    }
    if i.width == Compact {
      CompactSmall(words, start);
    } else if i.width == Normal {
      NormalSmall(words, start);
    }
  }

  lemma CompactSmall(words: seq<Word>, start: nat)
    requires Decode(words, start).Ok? && Decode(words, start).instruction.width == Compact
    ensures var i := Decode(words, start).instruction;
      i.opcode < BASE_OPCODE_COUNT && Fits(i.operands, 0x100)
  {
    hide OperandCount;
  }

  lemma NormalSmall(words: seq<Word>, start: nat)
    requires Decode(words, start).Ok? && Decode(words, start).instruction.width == Normal
    ensures var i := Decode(words, start).instruction;
      && i.opcode < BASE_OPCODE_COUNT && Fits(i.operands, 0x1_0000) && i.length == 1 + (OperandCount(i.opcode) + 1) / 2
  {
    hide OperandCount;
  }

  /** A truncated instruction is one that more words could complete or show to be malformed; other results are final. */
  lemma TruncatedIff(words: seq<Word>, start: nat)
    requires start <= |words|
    ensures Decode(words, start).Truncated? <==> exists more :: Decode(words + more, start) != Decode(words, start)
  {
    hide OperandCount, CompactOperands, NormalOperands, Padded;
    var enough: seq<Word> := [0, 0, 0, 0];
    if Decode(words, start).Truncated? {
      NotTruncated(words + enough, start);
    } else {
      forall more: seq<Word> ensures Decode(words + more, start) == Decode(words, start) {
        DecodeExtended(words, more, start);
      }
    }
  }

  lemma NotTruncated(words: seq<Word>, start: nat)
    requires start + 4 <= |words|
    ensures !Decode(words, start).Truncated?
  {
    hide OperandCount, CompactOperands, NormalOperands, Padded;
  }

  lemma DecodeExtended(words: seq<Word>, more: seq<Word>, start: nat)
    requires start < |words| && !Decode(words, start).Truncated?
    ensures Decode(words + more, start) == Decode(words, start)
  {
    hide OperandCount, CompactOperands, OpcodeOf;
    var longer := words + more;
    assert longer[start] == words[start];
    if Decode(words, start).Ok? {
      var n := Decode(words, start).instruction.length;
      assert longer[start..start + n] == words[start..start + n];
      DecodeLocal(words, start, longer, start);
    }
  }

  // ----- The fast decoder -----

  /** The fast path's opcode: byte arithmetic, wrapping at 256. */
  function UncheckedOpcode(header: Word): nat {
    var raw := header % 256;
    var page := header / 256 % 256;
    (raw % 64 + if raw / 64 == ESCAPE_FORMAT then (64 + page * 64 % 256) % 256 else 0) % 256
  }

  function UncheckedOperands(words: seq<Word>, start: nat, format: nat, n: nat): seq<Word>
    requires start < |words| && n <= 3
    requires format == NORMAL_FORMAT ==> start + 1 + (n + 1) / 2 <= |words|
    requires format >= WIDE_FORMAT ==> start + 1 + n <= |words|
  {
    var header := words[start];
    if format == COMPACT_FORMAT then
      [if n > 0 then header / 0x100 % 256 else 0, if n > 1 then header / 0x1_0000 % 256 else 0, if n > 2 then header / 0x100_0000 else 0]
    else if format == NORMAL_FORMAT then
      [if n > 0 then words[start + 1] % 0x1_0000 else 0, if n > 1 then words[start + 1] / 0x1_0000 else 0,
       if n > 2 then words[start + 2] % 0x1_0000 else 0]
    else
      [if n > 0 then words[start + 1] else 0, if n > 1 then words[start + 2] else 0, if n > 2 then words[start + 3] else 0]
  }

  /** `decode_unchecked`: no validation; meaningful only where the checked decoder succeeds. */
  function DecodeUnchecked(words: seq<Word>, start: nat): Instruction
    requires Decode(words, start).Ok?
  {
    var header := words[start];
    var format := header % 256 / 64;
    UncheckedOpcodeAgrees(words, start);
    var op: Opcode := UncheckedOpcode(header);
    var n := OperandCount(op);
    var operands := UncheckedOperands(words, start, format, n);
    if format == COMPACT_FORMAT then Instruction(op, Compact, operands, 1)
    else if format == NORMAL_FORMAT then Instruction(op, Normal, operands, 1 + (n + 1) / 2)
    else Instruction(op, Wide, operands, 1 + n)
  }

  lemma UncheckedOpcodeAgrees(words: seq<Word>, start: nat)
    requires Decode(words, start).Ok?
    ensures UncheckedOpcode(words[start]) == Decode(words, start).instruction.opcode
  {
    hide OperandCount;
    HeaderArithmetic(words[start]);
  }

  lemma HeaderArithmetic(header: Word)
    requires OpcodeOf(header) < OPCODE_COUNT
    ensures UncheckedOpcode(header) == OpcodeOf(header)
  {
    var page, raw := header / 256, header % 256;
    BaseBits(header);
    if raw / 64 == ESCAPE_FORMAT {
      PageByte(page, raw % 64);
    }
  }

  lemma PageByte(page: nat, base: nat)
    requires base < 64 && BASE_OPCODE_COUNT + page * 64 + base < OPCODE_COUNT
    ensures (base + (64 + page % 256 * 64 % 256) % 256) % 256 == BASE_OPCODE_COUNT + page * 64 + base
  {
    assert page == 0 || page == 1;
  }

  /** Wherever the checked decoder accepts, the fast decoder returns the same instruction. */
  lemma UncheckedAgrees(words: seq<Word>, start: nat)
    requires Decode(words, start).Ok?
    ensures DecodeUnchecked(words, start) == Decode(words, start).instruction
  {
    hide OperandCount, UncheckedOpcode, UncheckedOperands, NormalOperands, CompactOperands, Padded;
    UncheckedOpcodeAgrees(words, start);
    var d := Decode(words, start).instruction;
    var n := OperandCount(d.opcode);
    var format := words[start] % 256 / 64;
    if format == COMPACT_FORMAT {
      CompactAgrees(words, start, n);
    } else if format == NORMAL_FORMAT {
      NormalAgrees(words, start, n);
    } else {
      WideAgrees(words, start, format, n);
    }
  }

  lemma CompactAgrees(words: seq<Word>, start: nat, n: nat)
    requires start < |words| && n <= 3
    ensures UncheckedOperands(words, start, COMPACT_FORMAT, n) == Padded(CompactOperands(words[start], n))
  {
    assert words[start] / 0x100_0000 % 256 == words[start] / 0x100_0000;
  }

  lemma NormalAgrees(words: seq<Word>, start: nat, n: nat)
    requires n <= 3 && start + 1 + (n + 1) / 2 <= |words|
    ensures UncheckedOperands(words, start, NORMAL_FORMAT, n) == Padded(NormalOperands(words, start, n))
  {
  }

  lemma WideAgrees(words: seq<Word>, start: nat, format: nat, n: nat)
    requires n <= 3 && format >= WIDE_FORMAT && start + 1 + n <= |words|
    ensures UncheckedOperands(words, start, format, n) == Padded(words[start + 1..start + 1 + n])
  {
  }
}
