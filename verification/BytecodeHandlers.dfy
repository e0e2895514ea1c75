/** Handler tables: what validation accepts, and the nesting structure that follows. */
module BytecodeHandlers {
  import opened BytecodeEncoding
  import opened BytecodeCodec
  import opened BytecodeVerifier

  datatype Kind = Catch | Finally | IteratorClose

  /** Protected range `[start, end)`; a finalizer's body is `[handler, handlerEnd)`. */
  datatype Handler = Handler(start: nat, end: nat, handler: nat, handlerEnd: nat, kind: Kind, environmentDepth: nat)

  predicate IsFinalizer(h: Handler) { h.kind == Finally || h.kind == IteratorClose }

  predicate Contains(outer: Handler, inner: Handler) { outer.start <= inner.start && inner.end <= outer.end }

  predicate Crosses(left: Handler, right: Handler) {
    left.start < right.start && right.start < left.end && left.end < right.end
  }

  predicate FinalizerContains(outer: Handler, inner: Handler) {
    IsFinalizer(outer) && outer.handler <= inner.handler && inner.handlerEnd <= outer.handlerEnd
  }

  predicate FinalizerExecutesAround(outer: Handler, inner: Handler) {
    IsFinalizer(outer) && outer.handler <= inner.start && inner.end <= outer.handlerEnd
  }

  predicate CrossesFinalizers(left: Handler, right: Handler) {
    IsFinalizer(left) && IsFinalizer(right) &&
    var (first, second) := if left.handler <= right.handler then (left, right) else (right, left);
    first.handler < second.handler && second.handler < first.handlerEnd && first.handlerEnd < second.handlerEnd
  }

  predicate Protects(h: Handler, offset: nat) { h.start <= offset < h.end }
  predicate BodyCovers(h: Handler, offset: nat) { IsFinalizer(h) && h.handler <= offset < h.handlerEnd }

  /** The exclusive end of a finalizer follows a `ResumeCompletion`. */
  ghost predicate EndsWithResume(words: seq<Word>, starts: seq<nat>, end: nat)
    requires Listing(words, starts)
  {
    exists k :: 0 <= k < |starts| && Following(starts, |words|, k) == end && At(words, starts, k).opcode == RESUME_COMPLETION
  }

  ghost predicate EntryValid(words: seq<Word>, starts: seq<nat>, h: Handler)
    requires Listing(words, starts)
  {
    && h.start in starts && (h.end == |words| || h.end in starts)
    && h.handler in starts && (h.handlerEnd == |words| || h.handlerEnd in starts)
    && (if IsFinalizer(h) then h.handler < h.handlerEnd && EndsWithResume(words, starts, h.handlerEnd) else h.handlerEnd == h.handler)
    && h.start < h.end && !Protects(h, h.handler)
  }

  /** Table order: outer ranges first, no crossing of ranges or of finalizer bodies. */
  predicate PairValid(previous: Handler, current: Handler) {
    && previous.start <= current.start
    && (previous.start == current.start ==> previous.end > current.end)
    && !Crosses(previous, current) && !CrossesFinalizers(previous, current)
  }

  ghost predicate Nested(handlers: seq<Handler>) {
    forall i, j | 0 <= i < j < |handlers| :: PairValid(handlers[i], handlers[j])
  }

  ghost predicate HandlersAccepted(words: seq<Word>, starts: seq<nat>, handlers: seq<Handler>)
    requires Listing(words, starts)
  {
    (forall i | 0 <= i < |handlers| :: EntryValid(words, starts, handlers[i])) && Nested(handlers)
  }

  // ----- Nesting -----

  /** Protected ranges are nested or disjoint, and the earlier entry is the outer one. */
  lemma RangesLaminar(handlers: seq<Handler>, i: nat, j: nat)
    requires Nested(handlers) && i < j < |handlers|
    ensures Contains(handlers[i], handlers[j]) || handlers[i].end <= handlers[j].start
  {
    assert PairValid(handlers[i], handlers[j]);
  }

  /** At any offset the last covering entry of the table is the innermost. */
  lemma LastCoveringIsInnermost(handlers: seq<Handler>, i: nat, j: nat, offset: nat)
    requires Nested(handlers) && i <= j < |handlers| && Protects(handlers[i], offset) && Protects(handlers[j], offset)
    ensures Contains(handlers[i], handlers[j])
  {
    if i < j {
      RangesLaminar(handlers, i, j);
    }
  }

  /** Finalizer bodies are nested or disjoint. */
  lemma BodiesLaminar(handlers: seq<Handler>, i: nat, j: nat)
    requires Nested(handlers) && i < |handlers| && j < |handlers|
    requires IsFinalizer(handlers[i]) && IsFinalizer(handlers[j])
    ensures FinalizerContains(handlers[i], handlers[j]) || FinalizerContains(handlers[j], handlers[i])
            || handlers[i].handlerEnd <= handlers[j].handler || handlers[j].handlerEnd <= handlers[i].handler
  {
    if i < j {
      assert PairValid(handlers[i], handlers[j]);
    } else if j < i {
      assert PairValid(handlers[j], handlers[i]);
    }
  }

  // ----- Which tables are accepted -----

  /** The earlier range properly contains the later one or ends before it starts; finalizer bodies are nested or apart. */
  predicate PairLaminar(a: Handler, b: Handler) {
    && (a.end <= b.start || (a.start <= b.start && b.end <= a.end && (a.start != b.start || a.end != b.end)))
    && (a.kind != Catch && b.kind != Catch ==>
          || a.handlerEnd <= b.handler || b.handlerEnd <= a.handler
          || (a.handler <= b.handler && b.handlerEnd <= a.handlerEnd) || (b.handler <= a.handler && a.handlerEnd <= b.handlerEnd))
  }

  ghost predicate Laminar(handlers: seq<Handler>) {
    forall i, j | 0 <= i < j < |handlers| :: PairLaminar(handlers[i], handlers[j])
  }

  /** No range and no body is empty or reversed. */
  predicate Proper(h: Handler) { h.start < h.end && (h.kind == Catch || h.handler < h.handlerEnd) }

  /** The pairwise comparisons accept exactly the laminar tables with outer ranges first. */
  lemma NestedIff(handlers: seq<Handler>)
    requires forall i | 0 <= i < |handlers| :: Proper(handlers[i])
    ensures Nested(handlers) <==> Laminar(handlers)
  {
    if Nested(handlers) {
      forall i, j | 0 <= i < j < |handlers| ensures PairLaminar(handlers[i], handlers[j]) {
        assert PairValid(handlers[i], handlers[j]);
        PairIff(handlers[i], handlers[j]);
      }
    }
    if Laminar(handlers) {
      forall i, j | 0 <= i < j < |handlers| ensures PairValid(handlers[i], handlers[j]) {
        PairIff(handlers[i], handlers[j]);
      }
    }
  }

  lemma PairIff(a: Handler, b: Handler)
    requires Proper(a) && Proper(b)
    ensures PairValid(a, b) <==> PairLaminar(a, b)
  {
  }

  /** No instruction has `offset` strictly inside it. */
  ghost predicate CutsNone(words: seq<Word>, starts: seq<nat>, offset: nat)
    requires Listing(words, starts)
  {
    forall k | 0 <= k < |starts| :: !(starts[k] < offset < Following(starts, |words|, k))
  }

  lemma {:induction false} CoveredBefore(words: seq<Word>, starts: seq<nat>, offset: nat, k: nat)
    requires Listing(words, starts) && CutsNone(words, starts, offset) && k < |starts| && offset !in starts
    ensures offset < starts[0] || Following(starts, |words|, k) <= offset
    decreases k
  {
    hide Adjacent;
    if k > 0 {
      CoveredBefore(words, starts, offset, k - 1);
    }
    assert !(starts[k] < offset < Following(starts, |words|, k));
  }

  /** The instruction starts and the end of the code are the offsets inside the code that split no instruction. */
  lemma BoundaryIff(words: seq<Word>, starts: seq<nat>, offset: nat)
    requires Listing(words, starts) && offset <= |words|
    ensures offset in starts || offset == |words| <==> CutsNone(words, starts, offset)
  {
    hide Adjacent;
    if offset in starts {
      var j :| 0 <= j < |starts| && starts[j] == offset;
      forall k | 0 <= k < |starts| ensures !(starts[k] < offset < Following(starts, |words|, k)) {
        StartNotInside(words, starts, j, k);
      }
    } else if CutsNone(words, starts, offset) && offset != |words| {
      assert starts != [];
      CoveredBefore(words, starts, offset, |starts| - 1);
    } else if offset == |words| {
      forall k | 0 <= k < |starts| ensures Following(starts, |words|, k) <= |words| {
        AdjacentAhead(words, starts[k], Following(starts, |words|, k));
      }
    }
  }

  lemma StartNotInside(words: seq<Word>, starts: seq<nat>, j: nat, k: nat)
    requires Listing(words, starts) && j < |starts| && k < |starts|
    ensures !(starts[k] < starts[j] < Following(starts, |words|, k))
  {
    hide Adjacent;
    if j < k {
      StartsIncrease(words, starts, |words|, j, k);
    } else if k + 1 < j {
      StartsIncrease(words, starts, |words|, k + 1, j);
    }
  }

  /** A range of whole instructions with its handler outside it; a finalizer's body is whole and ends in a resume. */
  ghost predicate EntryWhole(words: seq<Word>, starts: seq<nat>, h: Handler)
    requires Listing(words, starts)
  {
    && Proper(h) && h.end <= |words| && CutsNone(words, starts, h.start) && CutsNone(words, starts, h.end)
    && h.handler < |words| && CutsNone(words, starts, h.handler) && (h.handler < h.start || h.end <= h.handler)
    && if h.kind == Catch then h.handlerEnd == h.handler
       else h.handlerEnd <= |words| && CutsNone(words, starts, h.handlerEnd)
            && exists k :: 0 <= k < |starts| && Following(starts, |words|, k) == h.handlerEnd
                           && At(words, starts, k).opcode == RESUME_COMPLETION
  }

  lemma EntryIff(words: seq<Word>, starts: seq<nat>, h: Handler)
    requires Listing(words, starts)
    ensures EntryValid(words, starts, h) <==> EntryWhole(words, starts, h)
  {
    hide Prefix, Adjacent, Decode, CutsNone;
    StartsInside(words, starts);
    if h.start <= |words| { BoundaryIff(words, starts, h.start); }
    if h.end <= |words| { BoundaryIff(words, starts, h.end); }
    if h.handler <= |words| { BoundaryIff(words, starts, h.handler); }
    if h.handlerEnd <= |words| { BoundaryIff(words, starts, h.handlerEnd); }
  }

  /** Validation accepts exactly the laminar tables of whole entries. */
  lemma AcceptedIff(words: seq<Word>, starts: seq<nat>, handlers: seq<Handler>)
    requires Listing(words, starts)
    ensures HandlersAccepted(words, starts, handlers)
            <==> (forall i | 0 <= i < |handlers| :: EntryWhole(words, starts, handlers[i])) && Laminar(handlers)
  {
    hide Prefix, EntryValid, Nested, Laminar, CutsNone;
    forall i | 0 <= i < |handlers| ensures EntryValid(words, starts, handlers[i]) <==> EntryWhole(words, starts, handlers[i]) {
      EntryIff(words, starts, handlers[i]);
    }
    if forall i | 0 <= i < |handlers| :: EntryWhole(words, starts, handlers[i]) {
      NestedIff(handlers);
    }
  }

  // ----- Depth accounting -----

  /** Indices of the first `n` entries that satisfy `p`. */
  ghost function Selected(handlers: seq<Handler>, n: nat, p: Handler -> bool): set<nat>
    requires n <= |handlers|
  {
    set i | 0 <= i < n && p(handlers[i])
  }

  lemma SelectedStep(handlers: seq<Handler>, n: nat, p: Handler -> bool)
    requires n < |handlers|
    ensures |Selected(handlers, n + 1, p)| == |Selected(handlers, n, p)| + if p(handlers[n]) then 1 else 0
  {
    var before, after := Selected(handlers, n, p), Selected(handlers, n + 1, p);
    if p(handlers[n]) {
      SelectedMember(handlers, n, p);
      assert after == before + {n};
    } else {
      assert after == before;
    }
  }

  lemma SelectedMember(handlers: seq<Handler>, n: nat, p: Handler -> bool)
    requires n < |handlers|
    ensures n !in Selected(handlers, n, p)
    ensures n in Selected(handlers, n + 1, p) <==> p(handlers[n])
  {
  }

  method Count(handlers: seq<Handler>, n: nat, p: Handler -> bool) returns (count: nat)
    requires n <= |handlers|
    ensures count == |Selected(handlers, n, p)|
  {
    count := 0;
    for i := 0 to n
      invariant count == |Selected(handlers, i, p)|
    {
      SelectedStep(handlers, i, p);
      if p(handlers[i]) {
        count := count + 1;
      }
    }
  }

  datatype HandlerDepth = HandlerDepth(handlers: nat, finallyHandlers: nat)

  /** Protected ranges around entry `i`, among the entries up to it. */
  ghost function RangeDepth(handlers: seq<Handler>, i: nat): nat
    requires i < |handlers|
  {
    |Selected(handlers, i + 1, h => Contains(h, handlers[i]))|
  }

  /** Finalizer bodies around the body of entry `i`. */
  ghost function BodyDepth(handlers: seq<Handler>, i: nat): nat
    requires i < |handlers|
  {
    |Selected(handlers, |handlers|, h => FinalizerContains(h, handlers[i]))|
  }

  /** Ranges around entry `i` plus finalizers whose body runs around its whole range. */
  ghost function CombinedDepth(handlers: seq<Handler>, i: nat): nat
    requires i < |handlers|
  {
    |Selected(handlers, |handlers|, h => Contains(h, handlers[i]))|
    + |Selected(handlers, |handlers|, h => FinalizerExecutesAround(h, handlers[i]))|
  }

  /** The reported depths bound every individual one. */
  ghost predicate DepthsBounded(handlers: seq<Handler>, depth: HandlerDepth) {
    && (forall i | 0 <= i < |handlers| :: RangeDepth(handlers, i) <= depth.handlers)
    && (forall i | 0 <= i < |handlers| && IsFinalizer(handlers[i]) ::
          BodyDepth(handlers, i) <= depth.handlers && BodyDepth(handlers, i) <= depth.finallyHandlers)
    && (forall i | 0 <= i < |handlers| :: CombinedDepth(handlers, i) <= depth.handlers)
  }

  /** The reported depths are attained. */
  ghost predicate DepthsAttained(handlers: seq<Handler>, depth: HandlerDepth) {
    && (depth.handlers == 0 || exists i :: 0 <= i < |handlers| && DepthOfEntry(handlers, i, depth.handlers))
    && (depth.finallyHandlers == 0
        || exists i :: 0 <= i < |handlers| && IsFinalizer(handlers[i]) && depth.finallyHandlers == BodyDepth(handlers, i))
  }

  ghost predicate DepthOfEntry(handlers: seq<Handler>, i: nat, n: nat)
    requires i < |handlers|
  {
    || n == RangeDepth(handlers, i)
    || n == CombinedDepth(handlers, i)
    || (IsFinalizer(handlers[i]) && n == BodyDepth(handlers, i))
  }

  ghost function CoveringRanges(handlers: seq<Handler>, offset: nat): set<nat> {
    set i | 0 <= i < |handlers| && Protects(handlers[i], offset)
  }

  ghost function CoveringBodies(handlers: seq<Handler>, offset: nat): set<nat> {
    set i | 0 <= i < |handlers| && BodyCovers(handlers[i], offset)
  }

  lemma SubsetCount(a: set<nat>, b: set<nat>)
    requires a <= b
    ensures |a| <= |b|
  {
    assert b == a + (b - a);
  }

  lemma MaxElement(s: set<nat>) returns (m: nat)
    requires s != {}
    ensures m in s && forall x | x in s :: x <= m
  {
    var x :| x in s;
    if s == {x} {
      m := x;
    } else {
      assert s - {x} != {};
      var rest := MaxElement(s - {x});
      m := if x > rest then x else rest;
      forall y | y in s ensures y <= m {
        if y != x { assert y in s - {x}; }
      }
    }
  }

  /** Never more covering protected ranges than the reported handler depth. */
  lemma RangesWithinDepth(handlers: seq<Handler>, depth: HandlerDepth, offset: nat)
    requires Nested(handlers) && DepthsBounded(handlers, depth)
    ensures |CoveringRanges(handlers, offset)| <= depth.handlers
  {
    var covering := CoveringRanges(handlers, offset);
    if covering != {} {
      var m := MaxElement(covering);
      var around := Selected(handlers, m + 1, h => Contains(h, handlers[m]));
      forall i | i in covering ensures i in around {
        LastCoveringIsInnermost(handlers, i, m, offset);
      }
      SubsetCount(covering, around);
      assert RangeDepth(handlers, m) == |around|;
    }
  }

  /** Among bodies that cover one offset, one lies inside all the others. */
  lemma InnermostBody(handlers: seq<Handler>, offset: nat, s: set<nat>) returns (m: nat)
    requires Nested(handlers) && s != {} && s <= CoveringBodies(handlers, offset)
    ensures m in s && forall i | i in s :: FinalizerContains(handlers[i], handlers[m])
  {
    var x :| x in s;
    if s == {x} {
      m := x;
    } else {
      assert s - {x} != {};
      var rest := InnermostBody(handlers, offset, s - {x});
      BodiesLaminar(handlers, x, rest);
      m := if FinalizerContains(handlers[x], handlers[rest]) then rest else x;
      forall i | i in s ensures FinalizerContains(handlers[i], handlers[m]) {
        if i != x { assert i in s - {x}; }
      }
    }
  }

  /** Never more covering finalizer bodies than the reported completion depth. */
  lemma BodiesWithinDepth(handlers: seq<Handler>, depth: HandlerDepth, offset: nat)
    requires Nested(handlers) && DepthsBounded(handlers, depth)
    ensures |CoveringBodies(handlers, offset)| <= depth.finallyHandlers
  {
    var covering := CoveringBodies(handlers, offset);
    if covering != {} {
      var m := InnermostBody(handlers, offset, covering);
      var around := Selected(handlers, |handlers|, h => FinalizerContains(h, handlers[m]));
      SubsetCount(covering, around);
      assert BodyDepth(handlers, m) == |around|;
    }
  }

  /** Around the innermost range that covers an offset: the ranges and the finalizers whose body holds that whole range. */
  lemma RangesAndBodiesWithinDepth(handlers: seq<Handler>, depth: HandlerDepth, offset: nat, m: nat)
    requires Nested(handlers) && DepthsBounded(handlers, depth) && m < |handlers|
    requires Protects(handlers[m], offset) && forall i | m < i < |handlers| :: !Protects(handlers[i], offset)
    ensures |CoveringRanges(handlers, offset)|
            + |set i | 0 <= i < |handlers| && handlers[i].kind != Catch
                       && handlers[i].handler <= handlers[m].start && handlers[m].end <= handlers[i].handlerEnd| <= depth.handlers
  {
    var bodies := set i | 0 <= i < |handlers| && handlers[i].kind != Catch
                          && handlers[i].handler <= handlers[m].start && handlers[m].end <= handlers[i].handlerEnd;
    var around := Selected(handlers, |handlers|, h => Contains(h, handlers[m]));
    forall i | i in CoveringRanges(handlers, offset) ensures i in around {
      LastCoveringIsInnermost(handlers, i, m, offset);
    }
    SubsetCount(CoveringRanges(handlers, offset), around);
    assert bodies == Selected(handlers, |handlers|, h => FinalizerExecutesAround(h, handlers[m]));
    assert CombinedDepth(handlers, m) <= depth.handlers;
  }

  /** The depths are no larger than some offset needs. */
  ghost predicate DepthsNeeded(handlers: seq<Handler>, depth: HandlerDepth) {
    && (depth.finallyHandlers == 0 || exists x :: depth.finallyHandlers <= |CoveringBodies(handlers, x)|)
    && (depth.handlers == 0 || exists x :: depth.handlers <= |CoveringRanges(handlers, x)| + |CoveringBodies(handlers, x)|)
  }

  lemma BodyDepthNeeded(handlers: seq<Handler>, i: nat)
    requires i < |handlers| && IsFinalizer(handlers[i]) && Proper(handlers[i])
    ensures BodyDepth(handlers, i) <= |CoveringBodies(handlers, handlers[i].handler)|
  {
    SubsetCount(Selected(handlers, |handlers|, h => FinalizerContains(h, handlers[i])), CoveringBodies(handlers, handlers[i].handler));
  }

  lemma RangeDepthNeeded(handlers: seq<Handler>, i: nat)
    requires i < |handlers| && Proper(handlers[i])
    ensures RangeDepth(handlers, i) <= |CoveringRanges(handlers, handlers[i].start)|
    ensures CombinedDepth(handlers, i)
            <= |CoveringRanges(handlers, handlers[i].start)| + |CoveringBodies(handlers, handlers[i].start)|
  {
    var x := handlers[i].start;
    SubsetCount(Selected(handlers, i + 1, h => Contains(h, handlers[i])), CoveringRanges(handlers, x));
    SubsetCount(Selected(handlers, |handlers|, h => Contains(h, handlers[i])), CoveringRanges(handlers, x));
    SubsetCount(Selected(handlers, |handlers|, h => FinalizerExecutesAround(h, handlers[i])), CoveringBodies(handlers, x));
  }

  lemma AttainedIsNeeded(handlers: seq<Handler>, depth: HandlerDepth)
    requires DepthsAttained(handlers, depth) && forall i | 0 <= i < |handlers| :: Proper(handlers[i])
    ensures DepthsNeeded(handlers, depth)
  {
    hide RangeDepth, BodyDepth, CombinedDepth, CoveringRanges, CoveringBodies;
    if depth.finallyHandlers != 0 {
      var i :| 0 <= i < |handlers| && IsFinalizer(handlers[i]) && depth.finallyHandlers == BodyDepth(handlers, i);
      BodyDepthNeeded(handlers, i);
    }
    if depth.handlers != 0 {
      var i :| 0 <= i < |handlers| && DepthOfEntry(handlers, i, depth.handlers);
      RangeDepthNeeded(handlers, i);
      if IsFinalizer(handlers[i]) { BodyDepthNeeded(handlers, i); }
    }
  }

  /** The part of the function layout that reserves handler and completion windows. */
  datatype Layout = Layout(argumentCount: nat, registerCount: nat, temporaryRegisterCount: nat,
                           maxHandlerDepth: nat, maxCompletionDepth: nat)

  predicate LayoutAccepted(layout: Layout, depth: HandlerDepth) {
    && layout.argumentCount <= layout.registerCount
    && layout.temporaryRegisterCount <= layout.registerCount - layout.argumentCount
    && depth.handlers <= layout.maxHandlerDepth && depth.finallyHandlers <= layout.maxCompletionDepth
  }

  /** A layout is accepted exactly when arguments and temporaries fit the registers and each offset its two windows. */
  lemma LayoutAcceptedIff(handlers: seq<Handler>, depth: HandlerDepth, layout: Layout)
    requires Nested(handlers) && DepthsBounded(handlers, depth) && DepthsNeeded(handlers, depth)
    ensures LayoutAccepted(layout, depth)
            <==> layout.argumentCount + layout.temporaryRegisterCount <= layout.registerCount
                 && depth.handlers <= layout.maxHandlerDepth
                 && forall x :: |CoveringBodies(handlers, x)| <= layout.maxCompletionDepth
  {
    hide CoveringBodies, CoveringRanges, DepthsBounded, Nested;
    forall x ensures |CoveringBodies(handlers, x)| <= depth.finallyHandlers {
      BodiesWithinDepth(handlers, depth, x);
    }
  }

  /** In an accepted function every offset fits the windows its layout reserves. */
  lemma WindowsSuffice(handlers: seq<Handler>, depth: HandlerDepth, layout: Layout, offset: nat)
    requires Nested(handlers) && DepthsBounded(handlers, depth) && LayoutAccepted(layout, depth)
    ensures |CoveringRanges(handlers, offset)| <= layout.maxHandlerDepth
    ensures |CoveringBodies(handlers, offset)| <= layout.maxCompletionDepth
  {
    RangesWithinDepth(handlers, depth, offset);
    BodiesWithinDepth(handlers, depth, offset);
  }

  /** Where a finalizer ends another instruction begins: its end is not the end of the code. */
  lemma FinalizerEndIsStart(words: seq<Word>, starts: seq<nat>, registerCount: nat, h: Handler)
    requires Verified(words, starts, registerCount) && EntryValid(words, starts, h) && IsFinalizer(h)
    ensures h.handlerEnd in starts && h.handlerEnd < |words|
  {
    hide InstructionVerified, Decode, Prefix;
    var k :| 0 <= k < |starts| && Following(starts, |words|, k) == h.handlerEnd && At(words, starts, k).opcode == RESUME_COMPLETION;
    assert k != |starts| - 1;
    StartsInside(words, starts);
  }

  // ----- Validation as it runs -----

  /** Scans from the start for the instruction that ends at `end`. */
  method FinalizerEndsWithResume(words: seq<Word>, end: nat, ghost starts: seq<nat>) returns (ok: bool)
    requires Listing(words, starts)
    ensures ok <==> EndsWithResume(words, starts, end)
  {
    hide Decode, Adjacent;
    var offset: nat := 0;
    ghost var k := 0;
    while offset < end
      invariant k <= |starts| && offset == (if k < |starts| then starts[k] else |words|)
      invariant forall j | 0 <= j < k :: Following(starts, |words|, j) != end
      decreases |starts| - k
    {
      if k < |starts| {
        LastStartBefore(words, starts, |words|, k);
      }
      if offset >= |words| {
        return false;
      }
      AdjacentDecodes(words, offset, Following(starts, |words|, k));
      var decoded := DecodeInstruction(words, offset);
      var next := offset + decoded.instruction.length;
      if next == end {
        UniqueEnd(words, starts, end, k);
        return decoded.instruction.opcode == RESUME_COMPLETION;
      }
      offset, k := next, k + 1;
    }
    forall j | k <= j < |starts| ensures Following(starts, |words|, j) != end {
      EndAfterStart(words, starts, k, j);
    }
    return false;
  }

  lemma AdjacentDecodes(words: seq<Word>, here: nat, there: nat)
    requires Adjacent(words, here, there)
    ensures Decode(words, here).Ok? && there == here + Decode(words, here).instruction.length
  {
  }

  lemma EndAfterStart(words: seq<Word>, starts: seq<nat>, k: nat, j: nat)
    requires Listing(words, starts) && k <= j < |starts|
    ensures Following(starts, |words|, j) > starts[k]
  {
    hide Adjacent;
    AdjacentAhead(words, starts[j], Following(starts, |words|, j));
    if k < j {
      StartsIncrease(words, starts, |words|, k, j);
    }
  }

  lemma UniqueEnd(words: seq<Word>, starts: seq<nat>, end: nat, k: nat)
    requires Listing(words, starts) && k < |starts| && Following(starts, |words|, k) == end
    ensures forall j | 0 <= j < |starts| && Following(starts, |words|, j) == end :: j == k
  {
    hide Adjacent;
    forall j | 0 <= j < |starts| && Following(starts, |words|, j) == end ensures j == k {
      if j < k {
        EndAfterStart(words, starts, j + 1, k);
      } else if k < j {
        EndAfterStart(words, starts, k + 1, j);
      }
    }
  }

  method ValidateEntry(words: seq<Word>, starts: seq<nat>, bits: seq<bool>, h: Handler) returns (ok: bool)
    requires Listing(words, starts) && |bits| == |words| && MarksStarts(bits, starts)
    ensures ok <==> EntryValid(words, starts, h)
  {
    hide EndsWithResume, Prefix;
    StartsInside(words, starts);
    var startValid := h.start < |bits| && bits[h.start];
    var endValid := h.end == |words| || (h.end < |bits| && bits[h.end]);
    var handlerValid := h.handler < |bits| && bits[h.handler];
    var handlerEndValid := h.handlerEnd == |words| || (h.handlerEnd < |bits| && bits[h.handlerEnd]);
    var kindValid := h.handlerEnd == h.handler;
    if IsFinalizer(h) {
      var resumes := FinalizerEndsWithResume(words, h.handlerEnd, starts);
      kindValid := h.handler < h.handlerEnd && resumes;
    }
    ok := startValid && endValid && handlerValid && handlerEndValid && kindValid && h.start < h.end && !Protects(h, h.handler);
  }

  function Max(a: nat, b: nat): nat { if a > b then a else b }

  /** Entry checks, pairwise nesting, then the three depth passes. */
  method ValidateHandlers(words: seq<Word>, starts: seq<nat>, bits: seq<bool>, handlers: seq<Handler>)
    returns (ok: bool, depth: HandlerDepth)
    requires Listing(words, starts) && |bits| == |words| && MarksStarts(bits, starts)
    ensures ok <==> HandlersAccepted(words, starts, handlers)
    ensures ok ==> DepthsBounded(handlers, depth) && DepthsAttained(handlers, depth)
  {
    hide EntryValid, Prefix, PairValid, MarksStarts, DepthsBounded, DepthsAttained;
    depth := HandlerDepth(0, 0);
    for i := 0 to |handlers|
      invariant forall j | 0 <= j < i :: EntryValid(words, starts, handlers[j])
    {
      var valid := ValidateEntry(words, starts, bits, handlers[i]);
      if !valid { return false, depth; }
    }
    for j := 0 to |handlers|
      invariant forall a, b | 0 <= a < b < j :: PairValid(handlers[a], handlers[b])
    {
      for i := 0 to j
        invariant forall a | 0 <= a < i :: PairValid(handlers[a], handlers[j])
      {
        if !PairValid(handlers[i], handlers[j]) { return false, depth; }
      }
    }
    depth := MeasureDepths(handlers);
    ok := true;
  }

  method MeasureDepths(handlers: seq<Handler>) returns (depth: HandlerDepth)
    ensures DepthsBounded(handlers, depth) && DepthsAttained(handlers, depth)
  {
    hide RangeDepth, BodyDepth, CombinedDepth;
    var all, finalizers := 0, 0;
    for i := 0 to |handlers|
      invariant forall j | 0 <= j < i :: RangeDepth(handlers, j) <= all
      invariant all == 0 || exists j :: 0 <= j < |handlers| && DepthOfEntry(handlers, j, all)
    {
      var n := MeasureRange(handlers, i);
      assert DepthOfEntry(handlers, i, n);
      all := Max(all, n);
    }
    for i := 0 to |handlers|
      invariant forall j | 0 <= j < |handlers| :: RangeDepth(handlers, j) <= all
      invariant forall j | 0 <= j < i && IsFinalizer(handlers[j]) ::
        BodyDepth(handlers, j) <= all && BodyDepth(handlers, j) <= finalizers
      invariant all == 0 || exists j :: 0 <= j < |handlers| && DepthOfEntry(handlers, j, all)
      invariant finalizers == 0 || exists j :: 0 <= j < |handlers| && IsFinalizer(handlers[j]) && finalizers == BodyDepth(handlers, j)
    {
      if IsFinalizer(handlers[i]) {
        var n := MeasureBody(handlers, i);
        assert DepthOfEntry(handlers, i, n);
        all, finalizers := Max(all, n), Max(finalizers, n);
      }
    }
    for i := 0 to |handlers|
      invariant forall j | 0 <= j < |handlers| :: RangeDepth(handlers, j) <= all
      invariant forall j | 0 <= j < |handlers| && IsFinalizer(handlers[j]) ::
        BodyDepth(handlers, j) <= all && BodyDepth(handlers, j) <= finalizers
      invariant forall j | 0 <= j < i :: CombinedDepth(handlers, j) <= all
      invariant all == 0 || exists j :: 0 <= j < |handlers| && DepthOfEntry(handlers, j, all)
    {
      var n := MeasureCombined(handlers, i);
      assert DepthOfEntry(handlers, i, n);
      all := Max(all, n);
    }
    depth := HandlerDepth(all, finalizers);
  }

  method MeasureRange(handlers: seq<Handler>, i: nat) returns (n: nat)
    requires i < |handlers|
    ensures n == RangeDepth(handlers, i)
  {
    n := Count(handlers, i + 1, h => Contains(h, handlers[i]));
  }

  method MeasureBody(handlers: seq<Handler>, i: nat) returns (n: nat)
    requires i < |handlers|
    ensures n == BodyDepth(handlers, i)
  {
    n := Count(handlers, |handlers|, h => FinalizerContains(h, handlers[i]));
  }

  method MeasureCombined(handlers: seq<Handler>, i: nat) returns (n: nat)
    requires i < |handlers|
    ensures n == CombinedDepth(handlers, i)
  {
    var ranges := Count(handlers, |handlers|, h => Contains(h, handlers[i]));
    var bodies := Count(handlers, |handlers|, h => FinalizerExecutesAround(h, handlers[i]));
    n := ranges + bodies;
  }
}
