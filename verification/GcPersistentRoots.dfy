/** The generation slab behind long-lived roots: identifiers are never reissued and never revive. */
module GcPersistentRoots {
  import opened Options
  import opened GcObjects

  const FIRST_GENERATION: nat := 1
  const LAST_GENERATION: nat := 0xFFFF_FFFF
  const MAX_ROOTS: nat := 0x1000_0000

  datatype RootId = RootId(slot: nat, generation: nat)

  datatype RootState = Occupied(reference: Ref, typeId: nat) | Free(next: Option<nat>) | Retired

  datatype RootEntry = RootEntry(generation: nat, state: RootState)

  datatype RootError =
    | EntryLimitExceeded
    | AllocationFailed
    | UnknownSlot
    | StaleGeneration(expected: nat)
    | VacantSlot
    | RetiredSlot
    | TypeMismatch(actual: nat)

  datatype Insertion = Inserted(id: RootId) | NotInserted(error: RootError)
  datatype Resolution = Resolved(reference: Ref) | Unresolved(error: RootError)

  // ----- Slab states -----

  ghost function OccupiedSlots(entries: seq<RootEntry>): set<int> {
    set i | 0 <= i < |entries| && entries[i].state.Occupied?
  }

  ghost function FreeSlots(entries: seq<RootEntry>): set<int> {
    set i | 0 <= i < |entries| && entries[i].state.Free?
  }

  ghost function RetiredSlots(entries: seq<RootEntry>): set<int> {
    set i | 0 <= i < |entries| && entries[i].state.Retired?
  }

  /** Following links from `head` visits exactly `list`. */
  ghost predicate Links(entries: seq<RootEntry>, head: Option<nat>, list: seq<int>)
    decreases |list|
  {
    if list == [] then head.None?
    else
      && 0 <= list[0] < |entries| && head == Some(list[0]) && entries[list[0]].state.Free?
      && Links(entries, entries[list[0]].state.next, list[1..])
  }

  ghost predicate IsFreeChain(entries: seq<RootEntry>, head: Option<nat>, list: seq<int>) {
    && NoDuplicates(list) && Links(entries, head, list)
    && forall i: int :: i in list <==> i in FreeSlots(entries)
  }

  /** The identifiers handed out so far, read off the entries alone. */
  predicate EverIssued(entries: seq<RootEntry>, id: RootId) {
    && id.slot < |entries| && FIRST_GENERATION <= id.generation
    && if entries[id.slot].state.Free? then id.generation < entries[id.slot].generation
       else id.generation <= entries[id.slot].generation
  }

  predicate IsLive(entries: seq<RootEntry>, id: RootId) {
    id.slot < |entries| && entries[id.slot].state.Occupied? && id.generation == entries[id.slot].generation
  }

  /** Why an identifier does not resolve, if it does not. */
  function Refusal(entries: seq<RootEntry>, id: RootId, expected: nat): Option<RootError> {
    if id.slot >= |entries| then Some(UnknownSlot)
    else if entries[id.slot].generation != id.generation then Some(StaleGeneration(entries[id.slot].generation))
    else match entries[id.slot].state
      case Occupied(_, typeId) => if typeId == expected then None else Some(TypeMismatch(typeId))
      case Free(_) => Some(VacantSlot)
      case Retired => Some(RetiredSlot)
  }

  /** What each refusal tells of the identifier's history. */
  lemma RefusalMeaning(entries: seq<RootEntry>, id: RootId, expected: nat)
    requires GenerationsInRange(entries)
    ensures var e := Refusal(entries, id, expected);
      && (e.None? <==> EverIssued(entries, id) && IsLive(entries, id) && entries[id.slot].state.typeId == expected)
      && (e.Some? && e.value.TypeMismatch? <==>
            EverIssued(entries, id) && IsLive(entries, id) && entries[id.slot].state.typeId != expected)
      && (e == Some(RetiredSlot) ==> EverIssued(entries, id) && !IsLive(entries, id))
      && (EverIssued(entries, id) && !IsLive(entries, id) && id.generation == LAST_GENERATION ==> e == Some(RetiredSlot))
      && (EverIssued(entries, id) && !IsLive(entries, id) && id.generation < LAST_GENERATION ==>
            e == Some(RetiredSlot) || e == Some(StaleGeneration(entries[id.slot].generation)))
      && (e == Some(VacantSlot) || e == Some(UnknownSlot) ==> !EverIssued(entries, id))
      && (e == Some(UnknownSlot) <==> id.slot >= |entries|)
      && (e.Some? && e.value.StaleGeneration? ==> id.slot < |entries| && e.value.expected == entries[id.slot].generation != id.generation)
  {
  }

  ghost predicate GenerationsInRange(entries: seq<RootEntry>) {
    forall i | 0 <= i < |entries| :: FIRST_GENERATION <= entries[i].generation <= LAST_GENERATION
  }

  lemma {:induction false} LinksKept(entries: seq<RootEntry>, head: Option<nat>, list: seq<int>, slot: nat, e: RootEntry)
    requires Links(entries, head, list) && slot < |entries| && slot !in list
    ensures Links(entries[slot := e], head, list)
    decreases |list|
  {
    if list != [] {
      LinksKept(entries, entries[list[0]].state.next, list[1..], slot, e);
    }
  }

  lemma {:induction false} LinksExtended(entries: seq<RootEntry>, head: Option<nat>, list: seq<int>, e: RootEntry)
    requires Links(entries, head, list)
    ensures Links(entries + [e], head, list)
    decreases |list|
  {
    if list != [] {
      LinksExtended(entries, entries[list[0]].state.next, list[1..], e);
    }
  }

  /** The chain is determined by the slab, so no slot can be on it twice. */
  lemma {:induction false} LinksUnique(entries: seq<RootEntry>, head: Option<nat>, a: seq<int>, b: seq<int>)
    requires Links(entries, head, a) && Links(entries, head, b)
    ensures a == b
    decreases |a|
  {
    if a != [] && b != [] {
      LinksUnique(entries, entries[a[0]].state.next, a[1..], b[1..]);
      assert a == [a[0]] + a[1..] && b == [b[0]] + b[1..];
    }
  }

  ghost function Indices(n: nat): (r: set<int>)
    ensures |r| == n && forall i: int :: i in r <==> 0 <= i < n
  {
    if n == 0 then {} else Indices(n - 1) + {n - 1}
  }

  /** Every slot is in exactly one state. */
  lemma SlotsPartitioned(entries: seq<RootEntry>)
    ensures |OccupiedSlots(entries)| + |FreeSlots(entries)| + |RetiredSlots(entries)| == |entries|
  {
    var used := OccupiedSlots(entries) + FreeSlots(entries);
    assert |used| == |OccupiedSlots(entries)| + |FreeSlots(entries)|;
    assert used !! RetiredSlots(entries);
    assert used + RetiredSlots(entries) == Indices(|entries|);
  }

  // ----- Transitions -----

  lemma ReuseKeepsChain(entries: seq<RootEntry>, list: seq<int>, slot: nat, e: RootEntry)
    requires IsFreeChain(entries, Some(slot), list) && e.state.Occupied?
    ensures slot < |entries| && entries[slot].state.Free? && list != []
    ensures IsFreeChain(entries[slot := e], entries[slot].state.next, list[1..])
  {
    assert list == [list[0]] + list[1..];
    LinksKept(entries, entries[slot].state.next, list[1..], slot, e);
    forall i: int ensures i in list[1..] <==> i in FreeSlots(entries[slot := e]) {
      assert i in list <==> i == list[0] || i in list[1..];
    }
  }

  lemma AppendKeepsChain(entries: seq<RootEntry>, list: seq<int>, head: Option<nat>, e: RootEntry)
    requires IsFreeChain(entries, head, list) && e.state.Occupied?
    ensures IsFreeChain(entries + [e], head, list)
  {
    LinksExtended(entries, head, list, e);
    assert FreeSlots(entries + [e]) == FreeSlots(entries);
  }

  lemma ReleaseKeepsChain(entries: seq<RootEntry>, list: seq<int>, head: Option<nat>, slot: nat, e: RootEntry)
    requires IsFreeChain(entries, head, list) && slot < |entries| && entries[slot].state.Occupied?
    requires e.state == Free(head) || e.state == Retired
    ensures if e.state.Free? then IsFreeChain(entries[slot := e], Some(slot), [slot] + list)
            else IsFreeChain(entries[slot := e], head, list)
  {
    assert slot !in list;
    LinksKept(entries, head, list, slot, e);
    if e.state.Free? {
      assert ([slot] + list)[1..] == list;
      assert FreeSlots(entries[slot := e]) == FreeSlots(entries) + {slot};
    } else {
      assert FreeSlots(entries[slot := e]) == FreeSlots(entries);
    }
  }

  /** Replacing one entry moves its slot between the three states. */
  lemma CountsAfter(entries: seq<RootEntry>, slot: nat, e: RootEntry)
    requires slot < |entries|
    ensures var after := entries[slot := e];
            && |OccupiedSlots(after)| + (if entries[slot].state.Occupied? then 1 else 0)
               == |OccupiedSlots(entries)| + (if e.state.Occupied? then 1 else 0)
            && |FreeSlots(after)| + (if entries[slot].state.Free? then 1 else 0)
               == |FreeSlots(entries)| + (if e.state.Free? then 1 else 0)
            && |RetiredSlots(after)| + (if entries[slot].state.Retired? then 1 else 0)
               == |RetiredSlots(entries)| + (if e.state.Retired? then 1 else 0)
  {
    var after := entries[slot := e];
    SetMoved(OccupiedSlots(entries), OccupiedSlots(after), slot);
    SetMoved(FreeSlots(entries), FreeSlots(after), slot);
    SetMoved(RetiredSlots(entries), RetiredSlots(after), slot);
  }

  lemma SetMoved(a: set<int>, b: set<int>, x: int)
    requires a - {x} == b - {x}
    ensures |b| + (if x in a then 1 else 0) == |a| + (if x in b then 1 else 0)
  {
    var rest := a - {x};
    assert a == if x in a then rest + {x} else rest;
    assert b == if x in b then rest + {x} else rest;
  }

  lemma CountsAppended(entries: seq<RootEntry>, e: RootEntry)
    requires e.state.Occupied?
    ensures |OccupiedSlots(entries + [e])| == |OccupiedSlots(entries)| + 1
    ensures FreeSlots(entries + [e]) == FreeSlots(entries) && RetiredSlots(entries + [e]) == RetiredSlots(entries)
  {
    assert OccupiedSlots(entries + [e]) == OccupiedSlots(entries) + {|entries|};
  }

  /** `slots` are the occupied slots in order, and `visited` their references. */
  ghost predicate VisitsOccupied(entries: seq<RootEntry>, visited: seq<Ref>, slots: seq<int>) {
    && |visited| == |slots|
    && (forall j | 0 <= j < |slots| :: 0 <= slots[j] < |entries| && entries[slots[j]].state.Occupied?)
    && (forall j | 0 <= j < |slots| :: 0 <= slots[j] < |entries| && entries[slots[j]].state.Occupied?
                                       && visited[j] == entries[slots[j]].state.reference)
    && (forall j, k | 0 <= j < k < |slots| :: slots[j] < slots[k])
    && (forall i | 0 <= i < |entries| && entries[i].state.Occupied? :: i in slots)
  }

  class PersistentRoots {
    const maxEntries: nat
    var entries: seq<RootEntry>
    var freeHead: Option<nat>
    var liveRoots: nat
    var freeSlots: nat
    var retiredSlots: nat
    ghost var chain: seq<int>
    /** Every identifier an insert has returned, and every one a release has accepted. */
    ghost var issued: iset<RootId>
    ghost var released: iset<RootId>

    ghost predicate Valid()
      reads this
    {
      && maxEntries <= MAX_ROOTS && |entries| <= maxEntries
      && GenerationsInRange(entries)
      && IsFreeChain(entries, freeHead, chain)
      && liveRoots == |OccupiedSlots(entries)|
      && freeSlots == |FreeSlots(entries)|
      && retiredSlots == |RetiredSlots(entries)|
      && (forall id :: id in issued <==> EverIssued(entries, id))
      && (forall id :: id in released <==> EverIssued(entries, id) && !IsLive(entries, id))
    }

    constructor (maxEntries: nat)
      requires maxEntries <= MAX_ROOTS
      ensures Valid() && this.maxEntries == maxEntries && entries == [] && issued == iset{} && released == iset{}
    {
      this.maxEntries := maxEntries;
      entries, freeHead, liveRoots, freeSlots, retiredSlots := [], None, 0, 0, 0;
      chain, issued, released := [], iset{}, iset{};
    }

    /** Reuses a free slot or appends one; the identifier has never been returned before. */
    method TryInsert(reference: Ref, typeId: nat) returns (result: Insertion)
      requires Valid()
      modifies this
      ensures Valid() && released == old(released)
      ensures liveRoots + freeSlots + retiredSlots == |entries|
      ensures result.Inserted? ==>
        && result.id !in old(issued) && issued == old(issued) + iset{result.id}
        && IsLive(entries, result.id) && entries[result.id.slot].state == Occupied(reference, typeId)
        && liveRoots == old(liveRoots) + 1
      ensures forall id | IsLive(old(entries), id) :: IsLive(entries, id) && entries[id.slot] == old(entries)[id.slot]
      ensures result.NotInserted? ==>
        && entries == old(entries) && issued == old(issued)
        && (result.error == EntryLimitExceeded <==> |entries| == maxEntries)
        && (result.error == AllocationFailed <==> |entries| < maxEntries)
        && freeSlots == 0
      ensures if old(freeHead).Some? then result.Inserted? && result.id.slot == old(freeHead).value && |entries| == |old(entries)|
              else result.Inserted? ==> result.id == RootId(|old(entries)|, FIRST_GENERATION) && |entries| == |old(entries)| + 1
    {
      hide IsFreeChain, OccupiedSlots, FreeSlots, RetiredSlots;
      SlotsPartitioned(entries);
      if freeHead.Some? {
        var slot := freeHead.value;
        var generation := if slot < |entries| then entries[slot].generation else 0;
        var e := RootEntry(generation, Occupied(reference, typeId));
        ReuseKeepsChain(entries, chain, slot, e);
        CountsAfter(entries, slot, e);
        freeHead := entries[slot].state.next;
        freeSlots := freeSlots - 1;
        entries := entries[slot := e];
        liveRoots := liveRoots + 1;
        chain := chain[1..];
        issued := issued + iset{RootId(slot, generation)};
        SlotsPartitioned(entries);
        return Inserted(RootId(slot, generation));
      }
      NothingFree(entries, chain);
      if |entries| == maxEntries { return NotInserted(EntryLimitExceeded); }
      var grown: bool := *;
      if !grown { return NotInserted(AllocationFailed); }
      var slot := |entries|;
      var e := RootEntry(FIRST_GENERATION, Occupied(reference, typeId));
      AppendKeepsChain(entries, chain, freeHead, e);
      CountsAppended(entries, e);
      entries := entries + [e];
      liveRoots := liveRoots + 1;
      issued := issued + iset{RootId(slot, FIRST_GENERATION)};
      SlotsPartitioned(entries);
      return Inserted(RootId(slot, FIRST_GENERATION));
    }

    /** Resolves exactly the identifiers issued and not released, for the type they were inserted with. */
    method Resolve(id: RootId, expected: nat) returns (result: Resolution)
      requires Valid()
      ensures result.Resolved? <==> id in issued && id !in released && entries[id.slot].state.typeId == expected
      ensures result.Resolved? ==> entries[id.slot].state == Occupied(result.reference, expected)
      ensures id in released ==>
        result.Unresolved? && (result.error.StaleGeneration? || result.error == RetiredSlot)
      ensures result.Unresolved? ==> Refusal(entries, id, expected) == Some(result.error)
    {
      hide IsFreeChain, OccupiedSlots, FreeSlots, RetiredSlots;
      if id.slot >= |entries| { return Unresolved(UnknownSlot); }
      var entry := entries[id.slot];
      if entry.generation != id.generation { return Unresolved(StaleGeneration(entry.generation)); }
      match entry.state
      case Occupied(reference, typeId) =>
        if typeId == expected { return Resolved(reference); }
        return Unresolved(TypeMismatch(typeId));
      case Free(_) => return Unresolved(VacantSlot);
      case Retired => return Unresolved(RetiredSlot);
    }

    /** An independently releasable slot for the same object. */
    method TryClone(id: RootId, expected: nat) returns (result: Insertion)
      requires Valid()
      modifies this
      ensures Valid() && released == old(released)
      ensures result.Inserted? ==>
        && id in old(issued) && id !in released && result.id != id
        && result.id !in old(issued) && issued == old(issued) + iset{result.id}
        && IsLive(entries, id) && IsLive(entries, result.id)
        && entries[result.id.slot].state == entries[id.slot].state
      ensures result.NotInserted? ==> entries == old(entries) && issued == old(issued)
      ensures Refusal(old(entries), id, expected).Some? ==> result == NotInserted(Refusal(old(entries), id, expected).value)
      ensures result.NotInserted? && Refusal(old(entries), id, expected).None? ==>
        result.error == if |entries| == maxEntries then EntryLimitExceeded else AllocationFailed
    {
      hide IsFreeChain, OccupiedSlots, FreeSlots, RetiredSlots;
      var resolved := Resolve(id, expected);
      if resolved.Unresolved? { return NotInserted(resolved.error); }
      result := TryInsert(resolved.reference, expected);
    }

    /** Invalidates one identifier for good; the slot is relinked, or retired after its last generation. */
    method Release(id: RootId, expected: nat) returns (error: Option<RootError>)
      requires Valid()
      modifies this
      ensures Valid() && issued == old(issued)
      ensures liveRoots + freeSlots + retiredSlots == |entries| == |old(entries)|
      ensures error.None? <==>
        id in old(issued) && id !in old(released) && old(entries)[id.slot].state.typeId == expected
      ensures error.None? ==> released == old(released) + iset{id} && liveRoots == old(liveRoots) - 1
      ensures error.None? ==>
        (entries[id.slot].state.Retired? <==> id.generation == LAST_GENERATION)
      ensures error.Some? ==> released == old(released) && entries == old(entries)
      ensures error == Refusal(old(entries), id, expected)
      ensures error.None? && id.generation < LAST_GENERATION ==>
        freeHead == Some(id.slot) && entries[id.slot] == RootEntry(id.generation + 1, Free(old(freeHead)))
      ensures error.None? && id.generation == LAST_GENERATION ==> freeHead == old(freeHead)
      ensures forall other | IsLive(old(entries), other) && (other != id || error.Some?) ::
                IsLive(entries, other) && entries[other.slot] == old(entries)[other.slot]
    {
      hide IsFreeChain, OccupiedSlots, FreeSlots, RetiredSlots;
      SlotsPartitioned(entries);
      var resolved := Resolve(id, expected);
      if resolved.Unresolved? { return Some(resolved.error); }
      var generation := entries[id.slot].generation;
      var e := if generation < LAST_GENERATION then RootEntry(generation + 1, Free(freeHead)) else RootEntry(generation, Retired);
      CountsAfter(entries, id.slot, e);
      ReleaseKeepsChain(entries, chain, freeHead, id.slot, e);
      liveRoots := liveRoots - 1;
      entries := entries[id.slot := e];
      if generation < LAST_GENERATION {
        freeHead := Some(id.slot);
        chain := [id.slot] + chain;
        freeSlots := freeSlots + 1;
      } else {
        retiredSlots := retiredSlots + 1;
      }
      released := released + iset{id};
      SlotsPartitioned(entries);
      return None;
    }

    /** Reports each occupied root once, in slot order. */
    method Trace() returns (visited: seq<Ref>)
      requires Valid()
      ensures exists slots :: VisitsOccupied(entries, visited, slots) && |slots| == liveRoots
    {
      visited := [];
      ghost var slots: seq<int> := [];
      for i := 0 to |entries|
        invariant VisitsOccupied(entries[..i], visited, slots)
      {
        VisitStep(entries, visited, slots, i);
        if entries[i].state.Occupied? {
          visited, slots := visited + [entries[i].state.reference], slots + [i];
        }
      }
      assert entries[..|entries|] == entries;
      VisitCount(entries, visited, slots);
    }
  }

  lemma NothingFree(entries: seq<RootEntry>, list: seq<int>)
    requires IsFreeChain(entries, None, list)
    ensures FreeSlots(entries) == {}
  {
    assert forall i: int :: i !in list;
  }

  lemma OneMoreEntry(entries: seq<RootEntry>, visited: seq<Ref>, slots: seq<int>, e: RootEntry)
    requires VisitsOccupied(entries, visited, slots)
    ensures if e.state.Occupied?
            then VisitsOccupied(entries + [e], visited + [e.state.reference], slots + [|entries|])
            else VisitsOccupied(entries + [e], visited, slots)
  {
    var longer := if e.state.Occupied? then slots + [|entries|] else slots;
    forall i | 0 <= i < |entries + [e]| && (entries + [e])[i].state.Occupied? ensures i in longer {
      if i < |entries| {
        assert entries[i].state.Occupied?;
      }
    }
  }

  lemma VisitStep(entries: seq<RootEntry>, visited: seq<Ref>, slots: seq<int>, n: nat)
    requires n < |entries| && VisitsOccupied(entries[..n], visited, slots)
    ensures if entries[n].state.Occupied?
            then VisitsOccupied(entries[..n + 1], visited + [entries[n].state.reference], slots + [n])
            else VisitsOccupied(entries[..n + 1], visited, slots)
  {
    hide VisitsOccupied;
    OneMoreEntry(entries[..n], visited, slots, entries[n]);
    assert entries[..n + 1] == entries[..n] + [entries[n]];
  }

  lemma VisitCount(entries: seq<RootEntry>, visited: seq<Ref>, slots: seq<int>)
    requires VisitsOccupied(entries, visited, slots)
    ensures |slots| == |OccupiedSlots(entries)|
  {
    ElementsSize(slots);
    forall i: int ensures i in slots <==> i in OccupiedSlots(entries) {
    }
    assert Elements(slots) == OccupiedSlots(entries);
  }
}
