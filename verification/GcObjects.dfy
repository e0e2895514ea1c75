/** Heap references, traced payloads and spans, as the collector sees them. */
module GcObjects {
  import opened Options

  /** A logical heap address: span id and byte offset inside the span. */
  datatype Ref = Ref(span: nat, offset: nat)

  /** One descriptor callback. `None` stands for a cleared weak edge or a value that is no heap reference. */
  datatype Slot =
    | Strong(target: Option<Ref>)
    | Weak(weak: Option<Ref>)
    | Ephemeron(key: Option<Ref>, value: Option<Ref>)
    | Finalization(registered: Option<Ref>, held: Option<Ref>)

  /** A payload is the list of callbacks its descriptor makes, in order. */
  type Object = seq<Slot>

  /** A queued cleanup command: the registry and the value it holds. */
  datatype Record = Record(owner: Ref, held: Option<Ref>)

  datatype Space = Eden | Survivor(age: nat) | Old

  /** Small spans are homogeneous in generation; a large span holds one object directly in Old space. */
  datatype Span =
    | Small(space: Space, slotCount: nat, cards: set<nat>)
    | Large(remembered: bool)

  const CARD_SIZE_BYTES: nat := 512
  const LARGE_OBJECT_OFFSET: nat := 16

  function Card(r: Ref): nat { r.offset / CARD_SIZE_BYTES }

  function OptionRefs(t: Option<Ref>): set<Ref> { if t.Some? then {t.value} else {} }

  /** Every reference a slot holds, of whatever strength. */
  function Refs(s: Slot): set<Ref> {
    match s
    case Strong(t) => OptionRefs(t)
    case Weak(t) => OptionRefs(t)
    case Ephemeron(k, v) => OptionRefs(k) + OptionRefs(v)
    case Finalization(t, h) => OptionRefs(t) + OptionRefs(h)
  }

  predicate IsYoungSpan(spans: map<nat, Span>, id: nat) {
    id in spans && spans[id].Small? && spans[id].space != Old
  }

  predicate IsYoung(spans: map<nat, Span>, r: Ref) { IsYoungSpan(spans, r.span) }

  ghost predicate NoDuplicates<T>(s: seq<T>) {
    forall i, j :: 0 <= i < j < |s| ==> s[i] != s[j]
  }

  ghost function Elements<T>(s: seq<T>): set<T> { set x | x in s }

  lemma {:induction false} ElementsSize<T>(s: seq<T>)
    requires NoDuplicates(s)
    ensures |Elements(s)| == |s|
  {
    if s != [] {
      var init, last := s[..|s| - 1], s[|s| - 1];
      ElementsSize(init);
      ElementsAppend(init, last);
      assert s == init + [last];
    }
  }

  lemma ElementsAppend<T>(s: seq<T>, x: T)
    ensures Elements(s + [x]) == Elements(s) + {x}
  {
  }

  lemma SubsetSize<T>(a: set<T>, b: set<T>)
    requires a <= b
    ensures |a| <= |b|
    ensures |a| == |b| ==> a == b
  {
    assert b == a + (b - a);
    assert a !! (b - a);
  }

  /** The address a major sweep has come to: it visits the highest span first, and each in address order. */
  datatype Stop = Stop(span: nat, offset: nat)

  predicate VisitedBefore(stop: Stop, r: Ref) {
    r.span > stop.span || (r.span == stop.span && r.offset < stop.offset)
  }
}
