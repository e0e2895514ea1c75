/** Slot bitmaps: 64 words of 64 bits, searched word by word for the least set bit. */
module GcBitmaps {
  import opened Options

  const WORD_BITS: nat := 64
  const BITMAP_WORDS: nat := 64
  const BITMAP_BITS: nat := 4096
  /** Slots of the smallest size class; the last bit of the last word is never used. */
  const MAX_SMALL_OBJECT_SLOTS: nat := 4095

  /** Bit `k` of a machine word is element `k`. */
  type Word = w: seq<bool> | |w| == WORD_BITS witness seq(WORD_BITS, _ => false)
  type Bitmap = b: seq<Word> | |b| == BITMAP_WORDS witness seq(BITMAP_WORDS, _ => seq(WORD_BITS, _ => false))

  const ZERO: Word := seq(WORD_BITS, _ => false)
  function EmptyBitmap(): Bitmap { seq(BITMAP_WORDS, _ => ZERO) }

  predicate Has(b: Bitmap, slot: int)
  {
    0 <= slot < BITMAP_BITS && b[slot / WORD_BITS][slot % WORD_BITS]
  }

  function Insert(b: Bitmap, slot: nat): (r: Bitmap)
    requires slot < BITMAP_BITS
    ensures forall s: int :: Has(r, s) <==> Has(b, s) || s == slot
  {
    var word: Word := b[slot / WORD_BITS][slot % WORD_BITS := true];
    b[slot / WORD_BITS := word]
  }

  function Remove(b: Bitmap, slot: nat): (r: Bitmap)
    requires slot < BITMAP_BITS
    ensures forall s: int :: Has(r, s) <==> Has(b, s) && s != slot
  {
    var word: Word := b[slot / WORD_BITS][slot % WORD_BITS := false];
    b[slot / WORD_BITS := word]
  }

  ghost function Slots(b: Bitmap): set<int> {
    set s: int | 0 <= s < BITMAP_BITS && Has(b, s)
  }

  lemma EmptyBitmapHasNothing(slot: int)
    ensures !Has(EmptyBitmap(), slot)
  {
  }

  lemma EmptySlots()
    ensures Slots(EmptyBitmap()) == {}
  {
  }

  lemma InsertedSlots(b: Bitmap, slot: nat)
    requires slot < BITMAP_BITS && !Has(b, slot)
    ensures Slots(Insert(b, slot)) == Slots(b) + {slot}
    ensures |Slots(Insert(b, slot))| == |Slots(b)| + 1
  {
  }

  lemma RemovedSlots(b: Bitmap, slot: nat)
    requires Has(b, slot)
    ensures Slots(Remove(b, slot)) == Slots(b) - {slot}
    ensures |Slots(Remove(b, slot))| == |Slots(b)| - 1
  {
    assert Slots(b) == Slots(Remove(b, slot)) + {slot};
  }

  /** Clears the bits below `k`. */
  function MaskFrom(w: Word, k: nat): (r: Word) {
    seq(WORD_BITS, i requires 0 <= i < WORD_BITS => k <= i && w[i])
  }

  /** The lowest set position from `from` on. */
  function TrailingZeros(w: Word, from: nat): (k: nat)
    requires exists i :: from <= i < WORD_BITS && w[i]
    ensures from <= k < WORD_BITS && w[k]
    ensures forall i | from <= i < k :: !w[i]
    decreases WORD_BITS - from
  {
    if w[from] then from else TrailingZeros(w, from + 1)
  }

  /** How many of the first `n` bits of a word are set. */
  function CountOnes(w: Word, n: nat): nat
    requires n <= WORD_BITS
  {
    if n == 0 then 0 else CountOnes(w, n - 1) + if w[n - 1] then 1 else 0
  }

  ghost predicate NoneBetween(b: Bitmap, low: nat, high: nat) {
    forall s | low <= s < high :: !Has(b, s)
  }

  lemma ZeroWordSkipped(b: Bitmap, start: nat, i: nat)
    requires i < BITMAP_WORDS && NoneBetween(b, start, i * WORD_BITS)
    requires forall j | 0 <= j < WORD_BITS && start <= i * WORD_BITS + j :: !b[i][j]
    ensures NoneBetween(b, start, (i + 1) * WORD_BITS)
  {
    forall s | start <= s < (i + 1) * WORD_BITS ensures !Has(b, s) {
      if i * WORD_BITS <= s {
        assert s / WORD_BITS == i && s == i * WORD_BITS + s % WORD_BITS;
        assert !b[i][s % WORD_BITS];
      }
    }
  }

  /** The part of word `i` at or after `start`. */
  ghost predicate Remaining(b: Bitmap, start: nat, i: nat, w: Word)
    requires i < BITMAP_WORDS
  {
    forall j | 0 <= j < WORD_BITS :: w[j] <==> start <= i * WORD_BITS + j && b[i][j]
  }

  lemma LeastBitFound(b: Bitmap, start: nat, i: nat, w: Word, k: nat)
    requires i < BITMAP_WORDS && NoneBetween(b, start, i * WORD_BITS) && Remaining(b, start, i, w)
    requires k < WORD_BITS && w[k] && forall j | 0 <= j < k :: !w[j]
    ensures start <= i * WORD_BITS + k && Has(b, i * WORD_BITS + k)
    ensures NoneBetween(b, start, i * WORD_BITS + k)
  {
    forall s | start <= s < i * WORD_BITS + k ensures !Has(b, s) {
      if i * WORD_BITS <= s {
        assert s / WORD_BITS == i && s == i * WORD_BITS + s % WORD_BITS;
        assert !w[s % WORD_BITS];
      }
    }
  }

  /** The least set slot at or after `start`, skipping empty words. */
  method NextSet(b: Bitmap, start: nat) returns (found: Option<nat>)
    ensures found.Some? ==> start <= found.value < MAX_SMALL_OBJECT_SLOTS && Has(b, found.value)
    ensures found.Some? ==> NoneBetween(b, start, found.value)
    ensures found.None? ==> NoneBetween(b, start, MAX_SMALL_OBJECT_SLOTS)
  {
    if start >= MAX_SMALL_OBJECT_SLOTS { return None; }
    var i := start / WORD_BITS;
    var w := MaskFrom(b[i], start % WORD_BITS);
    while true
      invariant i < BITMAP_WORDS
      invariant NoneBetween(b, start, i * WORD_BITS)
      invariant Remaining(b, start, i, w)
      decreases BITMAP_WORDS - i
    {
      if w != ZERO {
        assert exists j :: 0 <= j < WORD_BITS && w[j];
        var k := TrailingZeros(w, 0);
        LeastBitFound(b, start, i, w, k);
        var slot := i * WORD_BITS + k;
        return if slot < MAX_SMALL_OBJECT_SLOTS then Some(slot) else None;
      }
      ZeroWordSkipped(b, start, i);
      i := i + 1;
      if i == BITMAP_WORDS { return None; }
      w := b[i];
    }
  }

  ghost function SlotsBelow(b: Bitmap, n: nat): set<int> {
    set s: int | 0 <= s < n && Has(b, s)
  }

  lemma BitOfWord(b: Bitmap, i: nat, j: nat)
    requires i < BITMAP_WORDS && j < WORD_BITS
    ensures Has(b, i * WORD_BITS + j) <==> b[i][j]
  {
  }

  lemma {:induction false} WordCounted(b: Bitmap, i: nat, n: nat)
    requires i < BITMAP_WORDS && n <= WORD_BITS
    ensures |SlotsBelow(b, i * WORD_BITS + n)| == |SlotsBelow(b, i * WORD_BITS)| + CountOnes(b[i], n)
  {
    hide Has;
    if n > 0 {
      WordCounted(b, i, n - 1);
      var s := i * WORD_BITS + n - 1;
      BitOfWord(b, i, n - 1);
      assert SlotsBelow(b, s + 1) == SlotsBelow(b, s) + if b[i][n - 1] then {s} else {};
    }
  }

  /** Population count, one word at a time. */
  method Count(b: Bitmap) returns (n: nat)
    ensures n == |Slots(b)|
  {
    n := 0;
    assert SlotsBelow(b, 0) == {};
    for i := 0 to BITMAP_WORDS
      invariant n == |SlotsBelow(b, i * WORD_BITS)|
    {
      WordCounted(b, i, WORD_BITS);
      n := n + CountOnes(b[i], WORD_BITS);
    }
    assert SlotsBelow(b, BITMAP_BITS) == Slots(b);
  }

  lemma Member(slots: set<int>) returns (x: int)
    requires slots != {}
    ensures x in slots
  {
    if forall y: int :: y !in slots {
      assert false;
    }
    x :| x in slots;
  }
}
