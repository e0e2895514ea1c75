# Collector and bytecode verification

Dafny models of the two parts of the Tachyon engine whose promises span many functions, and of three small
pieces of arithmetic and bookkeeping beside them.

**The non-moving generational collector (`crates/tachyon-gc`).** A payload is the list of callbacks its descriptor
makes: strong edges, weak slots, ephemerons and finalization registrations. `GcLiveness` states what a mark has to
compute as a least closed set and `GcReachability` says the same by chains of reasons, `GcMarker` runs the tri-color
worklist with its ephemeron closure and weak phases, and `GcGenerations`, `GcCollections`, `GcRuns` and `GcHeap` carry
the heap invariant (no dangling reference, every Old-to-Young edge covered by a dirty card or remembered owner of a
chained span) through every mutator and collector step, aborted collections included. `GcSurvivors` says what a
collection does to the objects that stay (slots, promotion, cards), `GcRetries` that aborted marks tried again end as an
uninterrupted collection. The weak phases follow section 9.9 of ECMA-262, 2024 edition.
`GcManagedAllocation` is about the payload that is still outside the heap while a collection runs; `GcGarbage`,
`GcPartialSweeps`, `GcSweepStops` and `GcGarbageRecords` are about sweeps that fail part-way.

Below that sit the span table and the sweep: `GcBitmaps` (word-by-word slot bitmaps), `GcSpans` (slot geometry and the
free list threaded through dead slot bytes), `GcSpanTable` (publication, reuse, reclamation, epoch-qualified marks),
`GcSweep` (the two-pass sweep, teardown and external-byte accounting) and `GcTotals` (what those accounts count);
`GcSimulation` relates the two levels. `GcPersistentRoots` is the generation slab of long-lived roots and `GcPauses`
the pause histogram against exact order statistics.

**The bytecode toolchain (`crates/tachyon-bytecode`).** `BytecodeEncoding` and `BytecodeCodec` cover the four
instruction formats and both decoders; `BytecodeBuilder` the label-patching builder; `BytecodeRegisters` and
`BytecodeVerifier` the operand roles and structural verification; `BytecodeHandlers` nested handler tables;
`BytecodeEnvironments` static environment depths. Each pass is compared with an independent statement of what it is for:
`BytecodeOperands` lists what the interpreter does with every operand, `BytecodeHandlers` says which tables are laminar,
`BytecodeDepths` counts environments and `BytecodeFinalizers` asks what a completion instruction can do.
`BytecodeRuns` is the abstract machine those passes make promises about, following the completion routing of
`crates/tachyon-vm/src/interpreter.rs`; `BytecodeDispatch` where throws, returns and breaks go and that finally blocks
run; `BytecodeParking` which completions a finalizer can hold; `BytecodeRestores` and `BytecodeCompletions` what
routing needs beyond validation. `BytecodeUnchecked`, `BytecodeMisaligned`, `BytecodeObstructed`, `BytecodeReplayed` and
`BytecodePileUp` are counterexamples.

**`CivilDates`** is the day-number conversion of `crates/tachyon-intl-icu4x` (time values, section 21.4.1 of ECMA-262)
against counting days one at a time.

Code that updates state is modelled by classes and methods whose contracts give the new state as a function of the
old one; what the source promises about that function is proved as lemmas over values.

## What turned out not to hold

For each of these a lemma gives a concrete input, and where the promise is conditional another gives the exact condition.

- **Keyless ephemerons.** An ephemeron whose key is already cleared but whose value is a heap reference is looked at
  only if its owner has some other active weak item. Otherwise its value can be swept and the reference dangles
  (`KeylessLeakExample`). Weak closure is complete if and only if no live object is in that position
  (`WeakClosureComplete`). The heap invariant therefore includes "no keyless ephemeron holds a heap value", which
  constructors and clearing keep; `Ephemeron::replace_value` on a cleared entry would break it.
- **Pending payloads.** The value waiting in a managed allocation is traced as a root, but weak items are neither
  followed nor cleared in it, so a weak field may name a swept object when the value is published
  (`WeakPayloadDangles`); `PublishableAfterMinor` and `PublishableAfterMajor` give the exact conditions on the heap
  before the collection.
- **Failed sweeps.** A sweep that is refused a span's release or a drop stops with dead objects left unswept that may
  name freed ones (`FailedSweepDangles`). Told from the heap before the collection, a stop leaves no dangling reference
  if and only if no unreachable object behind it names one before it (`MajorStopIff`, `MinorStopIff`), and no stop at
  all does so if and only if no unreachable object names one that is visited earlier (`NeverDanglesIff`,
  `ReleasesNeverDangleIff`, `MinorNeverDanglesIff`). What survives is valid without the garbage, no later major mark
  meets a freed object, and the next completed major collection restores everything (`MajorPartlyKeeps`,
  `MarkMeetsAllocated`, `MajorRecovers`, `WorldsAreSafe`).
- **Garbage on dirty cards.** A minor collection in between takes garbage on a dirty card for live and may queue a
  cleanup record of it, a root that leads later major marks to freed objects (`GarbageQueued`; such a record is queued
  exactly when by `GarbageQueuedIff`).
- **Early promotion of Eden.** `replace_promotion_cards` asserts in debug builds that the span is a Survivor; an Eden
  span due for early promotion is prepared too (`AssertionFailsExample`, exactly when by `AssertionFailsIff`). The model
  prepares both.
- **`EnterFinally` and depth.** The environment pass compares a handler's recorded depth with the depth at its entry,
  and jumps with their targets, but not an `EnterFinally` with the finalizer it enters, and the interpreter does
  not restore a depth on that edge. Steps preserve "dynamic depth is static depth" if and only if each
  `EnterFinally` sits at the depth its innermost finalizer records (`AgreementPreservedIffAligned`);
  `MisalignedRun` is an accepted function for which they do not.
- **Restoring upward.** A restore to an environment depth above the current one is an engine error. Validation compares
  neither a handler's depth with the offsets it is selected from nor a break's depth with the finalizers that replay it,
  so an accepted function can throw into a handler that cannot be entered (`ThrowObstructed`), or park a break that can
  no longer be completed (`ReplayObstructed`). Completions are always delivered if and only if none that the code may
  route restores upward (`DeliveredIffUnobstructed`, `RunsDeliver`); the machine ends the run where one does.
- **Saved completions.** Nothing stops a plain jump from leaving a running finalizer, so an accepted function can save
  completions without bound (`CompletionsPileUp`). They stay within the bodies around the program counter if and only if
  the function is confined (`StackedPreservedIffConfined`), and then fit the reserved window (`RunsFitWindow`).
- **Register tables.** The builder notes fewer registers than the verifier demands on five opcodes, and more on one
  (`RolesDiffer`, `NotedCountSuffices`, `NotedCountMayFail`).
- **Operands the verifier does not check.** Five opcodes have one that is compared with nothing: the record base of
  `AttachInstanceFields` without fields, the scope names of `TypeofScope`, `SetFunctionName` and `DeleteById`, and the
  slot of `InitializeEnvironment` (`UncheckedOperands`). An accepted function uses only registers, names and slots that
  exist if and only if none of its instructions is such a case (`FunctionInRangeIff`). On eight opcodes an operand that
  is no register has to lie below the register count (`RegistersVerifiedIff`).
- **Compact decoding** ignores unused high bytes and is not injective (`DecodeNotInjective`); `DecodesAlike` says exactly which
  words decode to the same instruction.

`emit_abrupt_jump` ORs the wide format onto opcodes 72 and 73, which gives the escape header and decodes as intended
(`AbruptHeaderIsEscape`).

## Model

| member | source | states |
|---|---|---|
| GcLiveness.LeastClosedUnique | crates/tachyon-gc/src/mark.rs:57-91 | The closure a mark has to compute (roots and pending records, strong edges, held values, and values of ephemerons whose owner and key are live) has at most one least solution. |
| GcLiveness.LeastClosedExists | crates/tachyon-gc/src/mark.rs:57-91 | What every closed set contains is itself closed, so there is a least one. |
| GcLiveness.StrongEdgeForced | crates/tachyon-gc/src/mark.rs:182-220 | A strong target of a marked object belongs to every closed set, so the marker never marks too much along a strong edge. |
| GcLiveness.EphemeronValueForced | crates/tachyon-gc/src/mark.rs:391-413 | An ephemeron value is in every closed set once its owner and key are: the ephemeron rule is forced, not conservative. |
| GcReachability.LeastIffDerived | crates/tachyon-gc/src/mark.rs:57-91 | A set is the least closed one if and only if it holds exactly the objects some finite chain of reasons reaches: each a seed, a strong or held target, or an ephemeron value with its key already reached or outside the scope. |
| GcTricolor.EphemeronFixpoint | crates/tachyon-gc/src/mark.rs:239-296 | A pass over all weak owners that adds neither a mark nor an owner, with an empty gray queue, means the marks are closed under strong edges and the ephemeron rule. |
| GcMarker.Marker.Enqueue | crates/tachyon-gc/src/mark.rs:152-180 | Unless an error stops it, the marks grow by the reference if it is in scope and by nothing else, and it joins the gray queue exactly when it was white; the tri-color invariant and 'marks are below every closed set' are kept, and every error has a cause: an unallocated reference every complete mark would have to look at, an exhausted quota or an allocator refusal. |
| GcMarker.Marker.MarkAndPush | crates/tachyon-gc/src/gray.rs:51-86 | Queue space is reserved before the mark bit is set, so a marked object is never lost; the quota cannot be hit while it is at least the number of objects. |
| GcMarker.Marker.TraceSource | crates/tachyon-gc/src/mark.rs:566-605 | Tracing one object marks all its strong targets and records it as a weak owner exactly when it has active weak items. |
| GcMarker.Marker.RecordWeakOwner | crates/tachyon-gc/src/mark.rs:222-237 | Each object with active weak items gets exactly one worklist entry with the right flags; the owner quota cannot be hit while it is at least the number of objects. |
| GcMarker.Marker.Drain | crates/tachyon-gc/src/mark.rs:182-220 | Empties the gray queue: afterwards every marked object is black; it terminates because unfinished objects decrease. |
| GcMarker.Marker.EphemeronPass | crates/tachyon-gc/src/mark.rs:239-268 | Every ephemeron owner of the snapshot is visited once and values of live keys become marked. |
| GcMarker.Marker.CloseEphemerons | crates/tachyon-gc/src/mark.rs:239-268 | The nested drain and ephemeron loops terminate and end with the marks closed. |
| GcMarker.Marker.ClearOwner | crates/tachyon-gc/src/mark.rs:373-413 | The clearing phase rewrites one owner's payload to exactly the cleared payload, slot by slot; which slots stay is `GcWeakPhases.LiveSlotStays`. |
| GcMarker.Marker.FinalizeOwner | crates/tachyon-gc/src/mark.rs:416-448 | The enqueue phase empties exactly the registrations whose target died and appends one record for each, in order. |
| GcMarker.Marker.ClearWeak | crates/tachyon-gc/src/mark.rs:269-285 | All live weak owners, and no other object, are cleared, of their dead weak edges and ephemerons only (`GcWeakPhases.LiveObjectSlots`). |
| GcMarker.Marker.EnqueueFinalizations | crates/tachyon-gc/src/mark.rs:286-296 | All dead registrations of live owners are queued, once each, in worklist order. |
| GcMarker.Marker.TryEnqueueFinalization | crates/tachyon-gc/src/finalization.rs:135-169 | Appends exactly the record, or leaves the queue unchanged with its quota reached or the allocator refusing. |
| GcMarker.Marker.ScanRemembered | crates/tachyon-gc/src/mark.rs:519-553 | Minor marking traces every object on a dirty card and every remembered large owner of the chain once. |
| GcMarker.Marker.Mark | crates/tachyon-gc/src/mark.rs:94-133 | A successful mark leaves the least closed set as marks, the payloads exactly as the weak phases prescribe and the queue extended by exactly the records of dead registrations; an aborted one has marked only what every closed set contains and either changed no payload or completed marking and stopped its weak phases at one slot; each error has its cause, and no queue outgrows its limit. |
| GcMarker.NextReference | crates/tachyon-gc/src/table/collector.rs:360-382 | The least candidate at or after the cursor, or none when there is none. |
| GcWeakPhases.WeakClosureComplete | crates/tachyon-gc/src/mark.rs:269-296 | After a closed mark no live object names a dead one through any kind of slot if and only if no live object without other active weak items keeps a keyless ephemeron whose value died. |
| GcWeakPhases.KeylessLeakExample | crates/tachyon-gc/src/mark.rs:391-413 | A concrete heap where a keyless ephemeron keeps a dead value after a correct mark. |
| GcWeakPhases.RecordsMatchRegistrations | crates/tachyon-gc/src/mark.rs:416-448 | The records queued for an owner correspond one to one, in slot order, to its registrations with a dead target, each with that registration's held value. |
| GcWeakPhases.RecordsAfterClearing | crates/tachyon-gc/src/mark.rs:269-296 | Clearing weak edges first does not change which records the enqueue phase produces. |
| GcWeakPhases.NothingToFinalize | crates/tachyon-gc/src/mark.rs:286-296 | Skipping an owner without active registrations loses no record and changes no slot. |
| GcWeakPhases.ProcessedSlotClean | crates/tachyon-gc/src/mark.rs:269-296 | No slot of a processed owner names a dead object. |
| GcWeakPhases.LiveSlotStays | crates/tachyon-gc/src/mark.rs:373-387 | A slot none of whose referents died is left as it was by both weak phases, unless it is an ephemeron without key: live weak edges, ephemerons and registrations stay. |
| GcWeakPhases.LiveObjectSlots | crates/tachyon-gc/src/mark.rs:373-448 | Each slot of a live object is afterwards what it was if all its referents survive and empty otherwise, strong slots always the former. |
| GcWeakPhases.OtherObjectsStay | crates/tachyon-gc/src/mark.rs:269-296 | Objects that are neither marked nor sources keep their payload. |
| GcGenerations.CleanSourceClosed | crates/tachyon-gc/src/mark.rs:519-553 | Under the barrier contract an Old object on a clean card constrains no set of Young objects. |
| GcGenerations.DirtyCardsSuffice | crates/tachyon-gc/src/mark.rs:519-553 | Scanning dirty cards and scanning the whole Old heap have the same closed sets and therefore the same least one. |
| GcGenerations.MinorMarksExactly | crates/tachyon-gc/src/mark.rs:94-133 | A minor mark's result is exactly the least set of Young objects closed from roots, pending records and all Old objects, with every Old key live. |
| GcCollections.AbortKeepsValid | crates/tachyon-gc/src/heap.rs:493-523 | A collection whose mark aborts still leaves no dangling reference and an intact barrier contract. |
| GcRetries.RetriedMarks | crates/tachyon-gc/src/mark.rs:94-133 | Weak phases that stopped anywhere leave the least closed set of the next attempt what it was. |
| GcRetries.RetriedPayloads | crates/tachyon-gc/src/mark.rs:269-296 | Running the weak phases again over the interrupted payloads gives those of an uninterrupted run. |
| GcRetries.RetriedRecords | crates/tachyon-gc/src/mark.rs:286-296 | The records queued before the interruption and those of the second attempt are together exactly those of an uninterrupted run, as multisets: none is lost or queued twice. |
| GcRetries.RetriedMajor | crates/tachyon-gc/src/heap.rs:458-491 | Any number of aborted major marks followed by a completed collection leave the heap as one uninterrupted collection does, with the same records queued. |
| GcRetries.RetriedMinor | crates/tachyon-gc/src/heap.rs:493-523 | The same for minor collections: same survivors, payloads, generations, cards and records. |
| GcCollections.MinorNoDangling | crates/tachyon-gc/src/heap.rs:493-523 | After a minor collection every reference held by an object, root or pending record names an allocated object. |
| GcCollections.MinorPromotedCovered | crates/tachyon-gc/src/mark.rs:794-832 | Every survivor of a promoted span with a Young edge sits on a card prepared before the sweep: the spans the sweep promotes are among those mark prepared (the occupancies both compute agree by `GcSimulation.OccupancyAgrees`). |
| GcCollections.MinorOldCovered | crates/tachyon-gc/src/mark.rs:760-792 | Rebuilt cards still cover every Old object that keeps a Young edge. |
| GcCollections.MinorKeepsContract | crates/tachyon-gc/src/barrier.rs:164-227 | A successful minor collection re-establishes the Old-to-Young contract. |
| GcCollections.MinorKeepsValid | crates/tachyon-gc/src/heap.rs:493-523 | The whole heap invariant survives a minor collection. |
| GcCollections.MajorKeepsContract | crates/tachyon-gc/src/barrier.rs:164-227 | A successful major collection keeps the Old-to-Young contract. |
| GcCollections.MajorKeepsValid | crates/tachyon-gc/src/heap.rs:458-491 | The whole heap invariant survives a major collection. |
| GcSurvivors.MajorSlotsKept | crates/tachyon-gc/src/mark.rs:373-387 | After a major collection every slot of a survivor is what it was if all its referents survive, and empty otherwise. |
| GcSurvivors.MinorSlotsKept | crates/tachyon-gc/src/mark.rs:373-387 | The same after a minor collection, for Old objects it never looked at too. |
| GcSurvivors.MajorKeepsIff | crates/tachyon-gc/src/mark.rs:94-133 | A major collection keeps exactly the objects reached from a root, or the registry or held value of a queued record, by a finite chain of strong edges, held values and values of ephemerons whose keys the chain has reached. |
| GcSurvivors.MinorKeepsIff | crates/tachyon-gc/src/mark.rs:94-133 | A minor collection keeps all Old objects and exactly the Young ones such a chain reaches, every Old object counting as reached. |
| GcSurvivors.RunsResolve | crates/tachyon-gc/src/barrier.rs:164-227 | In every state of every run whose sweeps complete, whatever a slot of any kind, a root or a queued record names is allocated, and an Old object naming a Young one has the card of its 512 bytes dirty, or its large owner remembered, in a chained span. |
| GcSurvivors.PromotedIff | crates/tachyon-gc/src/sweep.rs:352-357 | A span that keeps an object is promoted by a minor collection if and only if it has survived one before or at least 80 percent of its slots are live; otherwise it is a Survivor of age one. |
| GcSurvivors.SecondMinorPromotes | crates/tachyon-gc/src/tuning.rs:61 | No object is Young through two minor collections in a row: the second promotes it. |
| GcSurvivors.TwoMinorsPromote | crates/tachyon-gc/src/tuning.rs:61 | In every run, whatever steps lie between, an object that lives through two minor collections is Old after the second. |
| GcSurvivors.SparseEdenStaysYoung | crates/tachyon-gc/src/tuning.rs:49-53 | An Eden span with fewer than 80 percent of its slots live is still Young after its first minor collection. |
| GcSurvivors.EmptiedSpanPooled | crates/tachyon-gc/src/sweep.rs:302-376 | A Young span that keeps nothing is gone, or Eden again without cards, and off both chains. |
| GcSurvivors.CardsPrecise | crates/tachyon-gc/src/mark.rs:760-832 | After a minor collection on each dirty card sits a survivor that named a Young object: no card stays dirty without cause. |
| GcSurvivors.LargeOwnersPrecise | crates/tachyon-gc/src/mark.rs:760-792 | The same for remembered large owners. |
| GcSurvivors.InvalidEdgeKeepsCard | crates/tachyon-gc/src/mark.rs:759-792 | The rebuild keeps a card on which a source names a Young object, or conservatively one that is no longer allocated. |
| GcSurvivors.RememberPrecise | crates/tachyon-gc/src/table/collector.rs:126-156 | The barrier makes only objects in the same 512 bytes of the same span be scanned, or the one large object. |
| GcSurvivors.RememberedAtHead | crates/tachyon-gc/src/table/collector.rs:126-156 | The source is scanned from then on, and its span enters the chain once, at the head. |
| GcCollections.AssertionFailsIff | crates/tachyon-gc/src/table/collector.rs:277-287 | The debug assertion that a span about to get promotion cards is a Survivor fails exactly for the Eden spans whose occupancy promotes them early. |
| GcCollections.AssertionFailsExample | crates/tachyon-gc/src/table/collector.rs:286 | A valid heap, twelve rooted objects in a fifteen-slot Eden span of size class 4096, whose minor collection trips that assertion. |
| GcRuns.AllocatedOldKeepsValid | crates/tachyon-gc/src/table.rs:286-292 | Old objects are born on a dirty card, so their initial edges need no barrier. |
| GcRuns.StoredKeepsValid | crates/tachyon-gc/src/heap.rs:398-426 | A payload store followed by the barrier over the written slots keeps the heap invariant. |
| GcRuns.NextKeepsValid | crates/tachyon-gc/src/heap.rs:385-523 | Every mutator or collector step whose sweep completes, aborted marks included, keeps the heap invariant. |
| GcRuns.RunsAreSafe | crates/tachyon-gc/src/barrier.rs:164-227 | In every state of every run whose sweeps complete no reference dangles and every Old-to-Young edge is on a dirty card or remembered owner of a chained span. |
| GcGarbage.SameMarks | crates/tachyon-gc/src/mark.rs:57-91 | Dead objects that nothing live names change nothing about the next mark: it stays out of them and computes the same set. |
| GcGarbage.SameWeakPhases | crates/tachyon-gc/src/mark.rs:269-296 | Nor do they change what the weak phases clear and queue for everything else. |
| GcPartialSweeps.MajorPartlyKeeps | crates/tachyon-gc/src/sweep.rs:172-184 | A major sweep that fails part-way, between or inside spans, leaves the heap outside its unswept garbage valid, whatever garbage it started with. |
| GcPartialSweeps.MinorPartlyKeeps | crates/tachyon-gc/src/sweep.rs:285-296 | The same for a minor sweep, if no older garbage sits on a dirty card. |
| GcPartialSweeps.DanglingIff | crates/tachyon-gc/src/sweep.rs:409-468 | Whatever part of the dead objects a failed major sweep has dropped, no reference dangles if and only if no dead object left behind names a dropped one. |
| GcPartialSweeps.MinorDanglingIff | crates/tachyon-gc/src/sweep.rs:302-376 | The same for a failed minor sweep. |
| GcPartialSweeps.MarkMeetsAllocated | crates/tachyon-gc/src/mark.rs:152-180 | A major mark over the garbage of failed sweeps, and a minor one if that garbage is on no dirty card, meets allocated references only: it cannot report an invalid one. |
| GcPartialSweeps.AbortKeepsOutside | crates/tachyon-gc/src/heap.rs:458-523 | A mark over garbage that aborts for another reason leaves the rest of the heap valid. |
| GcPartialSweeps.MajorRecovers | crates/tachyon-gc/src/heap.rs:458-491 | The next major collection that completes restores the whole heap invariant. |
| GcPartialSweeps.NextWorldKeeps | crates/tachyon-gc/src/heap.rs:385-523 | Every mutator step, aborted mark, completed or failing sweep keeps the heap outside the garbage valid; a minor collection takes garbage on dirty cards for live, for which all it names must be valid with it. |
| GcPartialSweeps.WorldsAreSafe | crates/tachyon-gc/src/heap.rs:385-523 | In every run in which sweeps may fail the heap outside the garbage stays valid, and all of it is when there is none. |
| GcPartialSweeps.CompletedMajorStep | crates/tachyon-gc/src/heap.rs:458-491 | A completed major collection is one of those steps and leaves no garbage. |
| GcPartialSweeps.CompletedMinorStep | crates/tachyon-gc/src/heap.rs:493-523 | A completed minor collection over clean garbage is one of those steps and leaves the Old garbage only. |
| GcSweepStops.MajorStopIff | crates/tachyon-gc/src/sweep.rs:172-184 | A major sweep that stops at an address leaves no dangling reference if and only if, before the collection, no unreachable object it has yet to visit names an unreachable one it has visited. |
| GcSweepStops.MinorStopIff | crates/tachyon-gc/src/sweep.rs:285-296 | The same for a minor sweep that stops on the Young chain. |
| GcSweepStops.NeverDanglesIff | crates/tachyon-gc/src/sweep.rs:409-468 | No place where a major sweep can be refused leaves a dangling reference if and only if no unreachable object names an unreachable one that is visited earlier. |
| GcSweepStops.ReleasesNeverDangleIff | crates/tachyon-gc/src/sweep.rs:433-437 | No refused release of an emptied span leaves one if and only if no unreachable object names an unreachable one across the start of an emptied span. |
| GcSweepStops.MinorNeverDanglesIff | crates/tachyon-gc/src/sweep.rs:302-376 | No place where a minor sweep can be refused leaves a dangling reference if and only if no unreachable Young object names an unreachable one visited earlier along the chain. |
| GcSweepStops.FailedSweepDangles | crates/tachyon-gc/src/sweep.rs:433-437 | A concrete valid heap whose major sweep, refused the release of an emptied span, leaves a dangling reference. |
| GcGarbageRecords.GarbageQueuedIff | crates/tachyon-gc/src/mark.rs:416-448 | A collection queues a cleanup record of a garbage object if and only if its mark visits one with a registration whose target nothing keeps. |
| GcGarbageRecords.GarbageQueued | crates/tachyon-gc/src/mark.rs:519-553 | A concrete valid heap that a failed major sweep and a completed minor collection over garbage on a dirty card lead to a queued record of that garbage, after which every major mark meets a reference to a freed object. |
| GcHeap.Heap.RememberOldToYoung | crates/tachyon-gc/src/table/collector.rs:126-156 | The barrier changes state exactly when an Old source stores a Young target that was not yet covered, and fails exactly for unallocated references; it dirties the 512 bytes of the source only (`GcSurvivors.RememberPrecise`). |
| GcHeap.Heap.Store | crates/tachyon-gc/src/heap.rs:398-426 | The store with its slot-by-slot barrier has exactly the effect of the store step. |
| GcHeap.Heap.AllocateYoung | crates/tachyon-gc/src/table.rs:250-294 | Publishing in Eden links the span into the young chain and keeps the invariant. |
| GcHeap.Heap.AllocateOld | crates/tachyon-gc/src/table.rs:250-294 | Publishing in an Old span dirties its card and links the span. |
| GcHeap.Heap.AllocateLarge | crates/tachyon-gc/src/table/publication.rs:356-415 | A large object is remembered and chained from birth. |
| GcHeap.Heap.PopPendingFinalization | crates/tachyon-gc/src/finalization.rs:130-132 | Records leave the queue in FIFO order, each once. |
| GcHeap.Heap.SetRoots | crates/tachyon-gc/src/heap.rs:577-606 | The exact roots may change to any allocated references. |
| GcHeap.Heap.RebuildRemembered | crates/tachyon-gc/src/mark.rs:760-792 | After it, each remembered Old span's cards are exactly those of dirty objects that still have a Young edge. |
| GcHeap.Heap.CompactRemembered | crates/tachyon-gc/src/table/collector.rs:427-446 | The chain keeps exactly the spans that are still dirty, once each. |
| GcHeap.Heap.PreparePromotions | crates/tachyon-gc/src/mark.rs:794-832 | Every span due for promotion gets exactly the cards of its marked objects with a Young edge. |
| GcHeap.Heap.SweepYoung | crates/tachyon-gc/src/sweep.rs:266-376 | In the visited part of the chain unmarked objects disappear, empty spans are pooled or released, and each retained span is aged or promoted whole, promoted exactly when `GcSurvivors.PromotedIff` says; the sweep stops only where a drop or the release of an empty span is refused. |
| GcHeap.Heap.SweepYoungSpan | crates/tachyon-gc/src/sweep.rs:302-376 | One Young span: release reserved before the first drop, then its unmarked objects disappear in address order, up to a refused drop, and a span swept to its end is pooled, released, aged or promoted. |
| GcHeap.Heap.DropWhite | crates/tachyon-gc/src/sweep.rs:379-406 | The destructive pass drops exactly the unmarked objects of the span below the one whose drop is refused. |
| GcHeap.Heap.CollectMinor | crates/tachyon-gc/src/heap.rs:493-523 | The effect is exactly the minor collection step, the aborted mark or the sweep stopped at a place where it can be refused, as the result says, over the garbage of earlier failed sweeps too; what stays valid is stated for each, and only resource errors are reported. What the step does to survivors is `GcSurvivors`, what trying again does `GcRetries.RetriedMinor`. |
| GcHeap.Heap.CollectMajor | crates/tachyon-gc/src/heap.rs:458-491 | The effect is exactly the major collection step, the aborted mark or the sweep stopped at a place where it can be refused, as the result says, over any garbage of earlier failed sweeps; a completed one leaves the whole heap valid, and only resource errors are reported. |
| GcHeap.Heap.SweepAll | crates/tachyon-gc/src/sweep.rs:156-185 | From the highest span down every unmarked object is dropped and every emptied span released, up to the address where the sweep is refused. |
| GcHeap.Heap.SweepSpan | crates/tachyon-gc/src/sweep.rs:409-468 | One span: release reserved before the first drop, unmarked objects dropped in address order, and the emptied span released. |
| GcManagedAllocation.PublishableAfterMinor | crates/tachyon-gc/src/heap/allocation.rs:203-209 | A payload traced as a root during a minor collection may be published afterwards if and only if, before it, each of its weak references named an Old object or a Young one reachable from roots, pending records, dirty sources or the payload's strong edges. |
| GcManagedAllocation.PublishableAfterMajor | crates/tachyon-gc/src/heap/allocation.rs:210-213 | The same for a major collection: if and only if each weak reference was reachable before it, that is, is marked by it. |
| GcManagedAllocation.WeakPayloadDangles | crates/tachyon-gc/src/heap/allocation.rs:37-50 | A concrete heap and pending payload whose weak field names an object the collection sweeps. |
| GcBitmaps.Insert | crates/tachyon-gc/src/span.rs:581-585 | Exactly one more slot is a member, whatever word it falls in. |
| GcBitmaps.Remove | crates/tachyon-gc/src/span.rs:587-593 | Exactly one slot fewer is a member. |
| GcBitmaps.NextSet | crates/tachyon-gc/src/span.rs:596-613 | The word-skipping search returns the least set slot at or after the start, and none exactly when there is none. |
| GcBitmaps.Count | crates/tachyon-gc/src/span.rs:619-623 | Summing word populations gives the number of member slots. |
| GcSpans.SlotOffsetRoundTrip | crates/tachyon-gc/src/span.rs:188-216 | Slot-to-offset and offset-to-slot are inverse on every size class, 16-bit casts included. |
| GcSpans.SlotsDisjoint | crates/tachyon-gc/src/span.rs:182-195 | Distinct slots occupy disjoint bytes inside the span, clear of the reserved region. |
| GcSpans.ThreadsUnique | crates/tachyon-gc/src/storage.rs:192-203 | The list threaded through dead slots is determined by the head and the bytes: it has no cycle and no alternative. |
| GcSpans.ThreadsKept | crates/tachyon-gc/src/storage.rs:192-203 | Writing a slot that is not on the list leaves the list intact. |
| GcSpans.ListedAllocationKeeps | crates/tachyon-gc/src/table.rs:519-548 | Reusing the head keeps the list duplicate-free, disjoint from live slots and complete. |
| GcSpans.BumpAllocationKeeps | crates/tachyon-gc/src/table.rs:519-548 | Bumping takes a slot that was never live and keeps the list complete. |
| GcSpans.FullMeansAllLive | crates/tachyon-gc/src/span.rs:506-527 | A reusable Old span has no capacity if and only if every slot is live. |
| GcSpans.ReclaimedListed | crates/tachyon-gc/src/table.rs:439-468 | A reclaimed Old slot goes on the list once and every other dead slot stays on it once. |
| GcSpans.RebuildStep | crates/tachyon-gc/src/table/collector.rs:454-481 | After visiting slots below n the list names exactly the dead ones below n. |
| GcSpans.SlotsFillSpan | crates/tachyon-gc/src/span.rs:182-216 | A span has as many slots as fit behind its reserved region, and no room for one more. |
| GcSpanTable.SpanTable.TryAllocateInSpan | crates/tachyon-gc/src/table.rs:250-294 | Allocation never returns a live slot, takes the head of an Old span's free list before bumping and else the slot at the cursor, publishes exactly one new object and disturbs no other object's header; each refusal has exactly its cause, and an Old span of sufficient slot size refuses exactly when every slot is live. |
| GcSpanTable.SpanTable.ReclaimSmallAfterDrop | crates/tachyon-gc/src/table.rs:439-468 | Exactly one published small object disappears and its Old slot is reusable at once; any other reference changes nothing. |
| GcSpanTable.SpanTable.UnpublishSmallForDrop | crates/tachyon-gc/src/table.rs:474-494 | Exactly one published small object disappears; the slot is not yet reusable. |
| GcSpanTable.RebuildLinks | crates/tachyon-gc/src/table/collector.rs:454-481 | From any intermediate sweep state the rebuilt list names every dead slot below the cursor exactly once and live bytes are untouched. |
| GcSpanTable.SpanTable.RebuildOldFreeList | crates/tachyon-gc/src/table/collector.rs:454-481 | The span becomes reusable with its dead slots in descending order and no object of the table changes. |
| GcSpanTable.VerifiedIffPublished | crates/tachyon-gc/src/table.rs:297-341 | A reference verifies exactly when it names a published object; a free-list link is never mistaken for a header. |
| GcSpanTable.RejectionCauses | crates/tachyon-gc/src/table.rs:297-341 | Which error a reference is rejected with, exactly: no such span, a vacant one, an offset between slots, a dead slot, and the three large-object cases. |
| GcSpanTable.SlotPublished | crates/tachyon-gc/src/table.rs:250-294 | Publishing a slot adds one reference and leaves every other object's header as it was. |
| GcSpanTable.SlotWithdrawn | crates/tachyon-gc/src/table.rs:439-494 | Withdrawing a slot removes one reference, whatever is written into the dead bytes. |
| GcSpanTable.SpanTable.AdvanceCollectionEpoch | crates/tachyon-gc/src/table.rs:497-513 | Right after advancing, every object is white, also when the 32-bit epoch wraps; no object or free list changes. |
| GcSpanTable.NothingMarkedLater | crates/tachyon-gc/src/span.rs:283-300 | Stored epochs never exceed the current one, so a later epoch sees no mark. |
| GcSpanTable.AllReset | crates/tachyon-gc/src/table.rs:497-513 | The overflow reset leaves no span that could read as marked in epoch one. |
| GcSpanTable.SpanTable.MarkReference | crates/tachyon-gc/src/table.rs:369-391 | The mark set grows by exactly the reference and the answer says whether it was white, for stale bitmaps too; unpublished references fail. |
| GcSpanTable.MarkedOnce | crates/tachyon-gc/src/span.rs:289-295 | Lazily clearing a stale bitmap before its first mark makes exactly one reference of the table marked. |
| GcSpanTable.SpanTable.IsMarked | crates/tachyon-gc/src/table.rs:344-366 | A published object reads as marked exactly when it was marked since the last advance. |
| GcSpanTable.SpanTable.YoungLiveOccupancy | crates/tachyon-gc/src/table/collector.rs:207-223 | The bitmap population of a young span in the current epoch, with its slot count. |
| GcSpanTable.SpanTable.NextAllocatedReference | crates/tachyon-gc/src/table/collector.rs:90-102 | The first live object of a span at or after a slot. |
| GcSpanTable.SpanTable.InstallSmall | crates/tachyon-gc/src/table/publication.rs:88-110 | Fresh storage publishes no object and carries no mark. |
| GcSpanTable.EmptyIffUnpublished | crates/tachyon-gc/src/table/publication.rs:113-153 | The slot counter is zero exactly when no reference into the span resolves. |
| GcSpanTable.SpanTable.Release | crates/tachyon-gc/src/table/publication.rs:113-153 | Succeeds only for a small span without objects, and always for one whose release was reserved; removes nothing but that entry and its marks. |
| GcSpanTable.SpanTable.PoolEmptyYoung | crates/tachyon-gc/src/table/collector.rs:304-322 | A pooled span forgets its marks and loses no object. |
| GcSpanTable.SpanTable.Promote | crates/tachyon-gc/src/table/collector.rs:232-274 | A promoted span is Old with every dead slot reusable and no object changed. |
| GcSpanTable.SpanTable.AllocateLarge | crates/tachyon-gc/src/table/publication.rs:356-415 | The owner and its continuations fill exactly the vacant or appended range, and exactly one object is published. |
| GcSpanTable.SpanTable.UnpublishLargeForDrop | crates/tachyon-gc/src/table/publication.rs:195-212 | Exactly the large object disappears, together with its mark. |
| GcSpanTable.SpanTable.ReleaseUnpublishedLarge | crates/tachyon-gc/src/table/publication.rs:215-252 | Vacates exactly the owner's range, only once it is unpublished, and always when that was reserved. |
| GcSweep.Sweeper.DropSmall | crates/tachyon-gc/src/sweep.rs:471-500 | All checks precede the withdrawal: on success exactly this object is dropped and charged off, on failure nothing changed and the failure has a cause. |
| GcSweep.Sweeper.DropDead | crates/tachyon-gc/src/sweep.rs:438-456 | Editing the bitmap it iterates, the second pass drops each dead object of the span exactly once and no marked one, up to a slot where a drop fails, and its counters and the first pass agree. |
| GcSweep.Sweeper.CountLive | crates/tachyon-gc/src/sweep.rs:420-432 | The first pass counts exactly the marked live slots. |
| GcSweep.Sweeper.SweepSmall | crates/tachyon-gc/src/sweep.rs:409-468 | A span is released exactly when nothing in it is marked, its release having been reserved before the first drop; otherwise it keeps exactly its marked objects with every dead slot reusable. |
| GcSweep.Sweeper.SweepLarge | crates/tachyon-gc/src/sweep.rs:503-576 | An unmarked large object is dropped once and its whole range vacated; any failure happens before the drop. |
| GcSweep.Sweeper.CollectOwners | crates/tachyon-gc/src/sweep.rs:164-170 | The worklist holds exactly the owners, overflows only if the bound is below the number of entries, and may be refused memory. |
| GcSweep.Sweeper.SweepFull | crates/tachyon-gc/src/sweep.rs:156-185 | Afterwards exactly the marked objects remain, every dropped object was dropped once, scanned objects and bytes equal live plus reclaimed, and external bytes minus the sum of charges never changes; an owner left is an old one of the same cohort and not empty; a failing sweep leaves exactly the marked objects and those behind the address it stopped at. |
| GcSweep.Sweeper.TeardownSmall | crates/tachyon-gc/src/sweep.rs:201-204 | Restarting the search at slot zero still drops every object of the span exactly once. |
| GcSweep.Sweeper.TeardownPayloads | crates/tachyon-gc/src/sweep.rs:192-212 | Teardown drops every published object exactly once and leaves none. |
| GcSweep.WithdrawnCharge | crates/tachyon-gc/src/sweep.rs:487-494 | Withdrawing an object lowers the sum of live charges by exactly its own charge, so a counter equal to the sum never underflows. |
| GcTotals.TotalsCountPublished | crates/tachyon-gc/src/sweep.rs:392-452 | The three sums the sweep's accounts are stated with are the number, the bytes and the external charges of exactly the published objects of the table. |
| GcSweep.SweptTransitive | crates/tachyon-gc/src/sweep.rs:172-183 | Exactly-once dropping composes over spans. |
| GcSweep.OnlyMarkedLeft | crates/tachyon-gc/src/sweep.rs:438-456 | After the second pass the span publishes marked objects only. |
| GcSweep.ExplainedEarlier | crates/tachyon-gc/src/sweep.rs:578-591 | An unknown type or a charge underflow reported part-way through was already there when the sweep began. |
| GcSweep.FailedAt | crates/tachyon-gc/src/sweep.rs:172-184 | A failure inside one owner leaves the whole table stopped at that address: nothing dead before it, nothing touched behind it, and every owner of its old cohort. |
| GcSimulation.OccupancyAgrees | crates/tachyon-gc/src/table/collector.rs:207-223 | The marker's count of a span's marked references, the bitmap population used to prepare promotions and the sweep's count of live marked slots are the same number. |
| GcSimulation.SweepSimulates | crates/tachyon-gc/src/heap.rs:458-491 | The table's full sweep takes a table that represents a heap to one that represents the collected heap. |
| GcSimulation.FailedSweepSimulates | crates/tachyon-gc/src/heap.rs:458-491 | A full sweep of the table that stops, inside a span or between spans, simulates the collector's sweep that stops at the same address. |
| GcSimulation.AllocationSimulates | crates/tachyon-gc/src/table.rs:250-294 | Allocating in a span of the table simulates the collector's Young or Old allocation step. |
| GcSimulation.AllocationEnabled | crates/tachyon-gc/src/table.rs:250-294 | The slot the table picks is one where that step may put the object. |
| GcSimulation.LargeSimulates | crates/tachyon-gc/src/table/publication.rs:356-415 | Publishing a large object over vacant entries simulates the collector's large allocation. |
| GcPersistentRoots.PersistentRoots.TryInsert | crates/tachyon-gc/src/persistent.rs:166-193 | Never returns an identifier issued before, keeps every live root, reuses the slot released last and grows only when no slot is free, and fails only without free slots at the quota. |
| GcPersistentRoots.PersistentRoots.Resolve | crates/tachyon-gc/src/persistent.rs:206-223 | Resolves exactly the identifiers issued, not released and of the expected type, and names the cause otherwise; a released one fails with a stale generation or a retired slot for ever. |
| GcPersistentRoots.PersistentRoots.TryClone | crates/tachyon-gc/src/persistent.rs:196-203 | The clone is a new identifier for the same object, released independently. |
| GcPersistentRoots.PersistentRoots.Release | crates/tachyon-gc/src/persistent.rs:226-251 | Succeeds exactly once per identifier, keeps every other root, and retires the slot exactly after its last generation. |
| GcPersistentRoots.RefusalMeaning | crates/tachyon-gc/src/persistent.rs:267-281 | What each refusal says of the identifier's history: never issued, released, retired, or of another type. |
| GcPersistentRoots.PersistentRoots.Trace | crates/tachyon-gc/src/persistent.rs:319-327 | Visits exactly the occupied roots, once each, in slot order. |
| GcPersistentRoots.SlotsPartitioned | crates/tachyon-gc/src/persistent.rs:253-265 | Live plus free plus retired equals the number of slots. |
| GcPersistentRoots.LinksUnique | crates/tachyon-gc/src/persistent.rs:166-193 | The free list is determined by the slab and has no cycle. |
| GcPersistentRoots.ReuseKeepsChain | crates/tachyon-gc/src/persistent.rs:171-181 | Taking the head leaves a list of exactly the remaining free entries. |
| GcPersistentRoots.ReleaseKeepsChain | crates/tachyon-gc/src/persistent.rs:226-251 | Releasing adds exactly the freed slot to the list, or none when it is retired. |
| GcPauses.PauseHistogram.Record | crates/tachyon-gc/src/pause.rs:51-58 | Buckets, sample count, total and maximum are those of all recorded pauses, saturated to their widths. |
| GcPauses.PauseHistogram.PercentileUpper | crates/tachyon-gc/src/pause.rs:72-86 | For percentiles 1 to 100 the answer is at least the exact ceil(n*p/100)-th smallest pause, zero exactly when that is zero, and below twice it otherwise; none exactly without samples; zero for percentile 0 and the maximum above 100. |
| GcPauses.BucketBrackets | crates/tachyon-gc/src/pause.rs:118-133 | A bucket's bound is never below its pauses, exact at zero, and less than twice any positive one. |
| GcPauses.RankBucket | crates/tachyon-gc/src/pause.rs:72-86 | The first bucket whose cumulative count reaches the rank is the bucket of the exact order statistic. |
| GcPauses.SortedOrderStatistic | crates/tachyon-gc/src/pause.rs:72-86 | The counting definition of the k-th smallest pause is element k-1 of a sorted list. |
| GcPauses.PercentilesOrdered | crates/tachyon-gc/src/pause.rs:61-70 | Reported percentiles never cross: p50 <= p95 <= p99. |
| CivilDates.CivilIsDate | crates/tachyon-intl-icu4x/src/date_time_format.rs:810-831 | Every day number maps to a valid proleptic Gregorian date. |
| CivilDates.CivilTomorrow | crates/tachyon-intl-icu4x/src/date_time_format.rs:810-831 | The next day number maps to the next calendar date. |
| CivilDates.CountCivil | crates/tachyon-intl-icu4x/src/date_time_format.rs:810-831 | Counting days from 1970-01-01 year by year and month by month inverts the conversion. |
| CivilDates.CivilCount | crates/tachyon-intl-icu4x/src/date_time_format.rs:810-831 | The conversion inverts the day count on every valid date, so the two are inverse bijections. |
| CivilDates.CivilRoundTrip | crates/tachyon-intl-icu4x/src/date_time_format.rs:790-807 | All fields are in range and recombine to the input milliseconds, negative ones included. |
| CivilDates.WeekdayOfCount | crates/tachyon-intl-icu4x/src/date_time_format.rs:798 | The weekday is that of the date's day count, day zero being a Thursday. |
| CivilDates.YearFound | crates/tachyon-intl-icu4x/src/date_time_format.rs:818-820 | The three-term correction counts exactly the completed March-based years of an era, leap days included. |
| BytecodeEncoding.RoundTrip | crates/tachyon-bytecode/src/encoding.rs:746-852 | Decoding an encoding at any position of a longer stream gives back opcode and operands and consumes exactly the encoded words, in all four formats. |
| BytecodeEncoding.DecodeLocal | crates/tachyon-bytecode/src/encoding.rs:801-852 | What decodes at an offset depends only on the words of that instruction, wherever they stand. |
| BytecodeEncoding.CanonicalDecodes | crates/tachyon-bytecode/src/encoding.rs:854-941 | Every normal, wide or escaped form decodes to its instruction, whether or not a shorter form would do. |
| BytecodeEncoding.CompactDecodes | crates/tachyon-bytecode/src/encoding.rs:836-847 | Every word with the compact format is an instruction by itself. |
| BytecodeEncoding.EncodeShortest | crates/tachyon-bytecode/src/encoding.rs:746-799 | No words that decode to an instruction are fewer than those it is encoded with. |
| BytecodeEncoding.TruncatedIff | crates/tachyon-bytecode/src/encoding.rs:801-852 | Decoding reports truncation if and only if appending words could change the result; every other result is final. |
| BytecodeEncoding.DecodeNotInjective | crates/tachyon-bytecode/src/encoding.rs:836-847 | Compact decoding ignores unused high bytes: two different words decode to the same instruction. |
| BytecodeEncoding.CompactDecodesAlike | crates/tachyon-bytecode/src/encoding.rs:836-847 | Two compact headers decode alike if and only if they agree on the low bytes their opcode uses, one more than its operands. |
| BytecodeEncoding.DecodesAlike | crates/tachyon-bytecode/src/encoding.rs:801-941 | Exactly which words decode to the same instruction: compact headers that agree on their used part, and otherwise identical words only. |
| BytecodeEncoding.WordsDetermined | crates/tachyon-bytecode/src/encoding.rs:854-941 | A normal, wide or escaped instruction determines the words it was decoded from. |
| BytecodeEncoding.UncheckedAgrees | crates/tachyon-bytecode/src/lib.rs:109-226 | Wherever the checked decoder accepts, the unchecked one returns the same opcode, width, operands and length, its 8-bit page arithmetic included. |
| BytecodeCodec.EncodeInstruction | crates/tachyon-bytecode/src/encoding.rs:746-799 | The loop-built word list is the specified encoding, or the operand-count error exactly when the count is wrong. |
| BytecodeCodec.DecodeInstruction | crates/tachyon-bytecode/src/encoding.rs:801-852 | The operand-filling decoder returns exactly the specified decoding or error. |
| BytecodeRegisters.NotedCountSuffices | crates/tachyon-bytecode/src/builder.rs:242-450 | The register count the builder records satisfies the verifier exactly when the one register the builder does not note, on five opcodes, is below the count as well; which registers those checks are about is `BytecodeOperands.RegistersVerifiedIff`. |
| BytecodeRegisters.NotedCountMayFail | crates/tachyon-bytecode/src/verify.rs:1032-1033 | A concrete `CreateClass` and builder-computed register count that the verifier refuses. |
| BytecodeRegisters.RolesDiffer | crates/tachyon-bytecode/src/verify.rs:1135-1189 | The operand tables of builder and verifier agree on all opcodes but six; on one of those the builder is the stricter. |
| BytecodeRegisters.WindowBelowCount | crates/tachyon-bytecode/src/verify.rs:879-1320 | Every register of a verified call window is below the register count. |
| BytecodeOperands.RegistersVerifiedIff | crates/tachyon-bytecode/src/verify.rs:879-1320 | The register checks pass if and only if every register the interpreter reads or writes for the instruction is below the count, the record base of a class without fields excepted and eight operands mistaken for registers included; the registers are listed opcode by opcode from the interpreter. |
| BytecodeOperands.CheckedRegisters | crates/tachyon-vm/src/interpreter.rs:888-2240 | So every register an accepted instruction touches, windows included, is below the count but for that record base. |
| BytecodeOperands.OperandsAreUsed | crates/tachyon-bytecode/src/encoding.rs:340-495 | Each opcode's encoding carries exactly the operands the interpreter uses. |
| BytecodeOperands.ControlAgrees | crates/tachyon-bytecode/src/encoding.rs:516-527 | The verifier's terminal, jump and break opcodes are those that end, jump and break when they run. |
| BytecodeOperands.OperandsVerifiedIff | crates/tachyon-bytecode/src/verify.rs:879-1320 | The remaining checks pass if and only if every constant, scope name, function, environment slot and flag the interpreter uses is in range, the operands of four opcodes excepted. |
| BytecodeOperands.FullyVerifiedIff | crates/tachyon-bytecode/src/verify.rs:844-1320 | The streams `verify` accepts, said of what the interpreter does with each instruction. |
| BytecodeOperands.FunctionInRangeIff | crates/tachyon-bytecode/src/verify.rs:879-1320 | An accepted function uses only registers, scope names and slots that exist if and only if none of its instructions is one of five cases the verifier leaves unchecked. |
| BytecodeUnchecked.UncheckedOperands | crates/tachyon-bytecode/src/verify.rs:1076-1078 | A concrete accepted function of which each of five instructions uses a register, scope name or slot that does not exist. |
| BytecodeBuilder.AbruptHeaderIsEscape | crates/tachyon-bytecode/src/builder.rs:136-137 | OR-ing the wide format onto opcodes 72 and 73 yields exactly the escape header of the same opcode. |
| BytecodeBuilder.FinishedDecodes | crates/tachyon-bytecode/src/builder.rs:203-217 | After patching, linear decoding yields exactly the emitted instructions in order, each symbolic target replaced by its label's bound offset. |
| BytecodeBuilder.ChangedWordIsTarget | crates/tachyon-bytecode/src/builder.rs:203-217 | Patching changes nothing but the target operand words of emitted jumps. |
| BytecodeBuilder.SourceMapIncreases | crates/tachyon-bytecode/src/builder.rs:203-217 | Retained source-map offsets are strictly increasing instruction starts. |
| BytecodeBuilder.Builder.NewLabel | crates/tachyon-bytecode/src/builder.rs:62-67 | A fresh unbound label; everything emitted so far keeps its meaning. |
| BytecodeBuilder.Builder.BindLabel | crates/tachyon-bytecode/src/builder.rs:69-80 | Binds an unbound label to the current offset, which is an instruction boundary or the end; unknown and bound labels are refused. |
| BytecodeBuilder.Builder.Emit | crates/tachyon-bytecode/src/builder.rs:87-101 | Refuses exactly for a wrong operand count, a full code stream or a register without successor, in that order, and otherwise appends exactly one instruction. |
| BytecodeBuilder.Builder.EmitJump | crates/tachyon-bytecode/src/builder.rs:103-120 | Refuses exactly for an unknown label or a full code stream, and otherwise appends one jump whose target is the label. |
| BytecodeBuilder.Builder.EmitAbruptJump | crates/tachyon-bytecode/src/builder.rs:122-145 | Refuses exactly for an unknown label or a full code stream, and otherwise appends one break or continue with its environment depth. |
| BytecodeBuilder.Builder.EmitConditionalJump | crates/tachyon-bytecode/src/builder.rs:177-201 | Refuses exactly for an unknown label, a register without successor or a full code stream, and otherwise appends one conditional jump on a noted register. |
| BytecodeBuilder.Builder.Finish | crates/tachyon-bytecode/src/builder.rs:203-217 | Succeeds exactly when every used label is bound, and then the words decode to everything emitted with resolved targets; the register count is zero, or one more than a register noted for an emitted instruction or for one refused after noting. |
| BytecodeVerifier.FindStarts | crates/tachyon-bytecode/src/verify.rs:844-878 | Linear decoding succeeds exactly when the words have a listing of boundaries, and then returns it. |
| BytecodeVerifier.SameListing | crates/tachyon-bytecode/src/verify.rs:844-878 | The listing of boundaries is unique. |
| BytecodeVerifier.Verify | crates/tachyon-bytecode/src/verify.rs:844-1320 | Accepts exactly the streams that decode completely, end in a terminal instruction, keep every register, constant, scope name, function, environment slot and flag operand it looks at in range and send every jump to an instruction start; which operands those are is `BytecodeOperands.FullyVerifiedIff`. |
| BytecodeVerifier.UndecodableRefused | crates/tachyon-bytecode/src/verify.rs:844-878 | A stream that stops decoding part-way has no listing and is refused. |
| BytecodeHandlers.ValidateHandlers | crates/tachyon-bytecode/src/verify.rs:133-223 | Accepts exactly the tables whose entries lie on boundaries and nest, which are the laminar ones of `BytecodeHandlers.AcceptedIff`, and returns their depths. |
| BytecodeHandlers.AcceptedIff | crates/tachyon-bytecode/src/verify.rs:133-223 | Accepted are exactly the tables of which each earlier range properly contains a later one or ends before it starts, finalizer bodies are nested or apart, no range, body or handler cuts an instruction or is empty, no handler lies in its own range and each finalizer ends behind a `ResumeCompletion`. |
| BytecodeHandlers.NestedIff | crates/tachyon-bytecode/src/verify.rs:167-206 | The pairwise comparisons accept exactly the laminar tables with outer ranges first, ranges that start at one instruction included. |
| BytecodeHandlers.RangesLaminar | crates/tachyon-bytecode/src/verify.rs:167-206 | Protected ranges of an accepted table are nested or disjoint, the earlier entry being the outer. |
| BytecodeHandlers.BodiesLaminar | crates/tachyon-bytecode/src/verify.rs:252-276 | Finalizer bodies are pairwise nested or disjoint. |
| BytecodeHandlers.LastCoveringIsInnermost | crates/tachyon-bytecode/src/verify.rs:167-206 | At any offset the last covering entry is the innermost. |
| BytecodeHandlers.RangesWithinDepth | crates/tachyon-bytecode/src/verify.rs:207-223 | The protected ranges covering an offset number at most the returned handler depth. |
| BytecodeHandlers.BodiesWithinDepth | crates/tachyon-bytecode/src/verify.rs:207-223 | The finalizer bodies covering an offset number at most the returned completion depth. |
| BytecodeHandlers.RangesAndBodiesWithinDepth | crates/tachyon-bytecode/src/verify.rs:207-223 | The ranges covering an offset and the bodies around the innermost of them are together no more than the returned handler depth. |
| BytecodeHandlers.AttainedIsNeeded | crates/tachyon-bytecode/src/verify.rs:207-223 | The returned depths are no larger than what covers some offset. |
| BytecodeHandlers.LayoutAcceptedIff | crates/tachyon-bytecode/src/verify.rs:72-89 | A layout is accepted if and only if arguments and temporaries fit its registers, its handler depth is not below the returned one and no offset lies in more bodies than its completion depth. |
| BytecodeHandlers.WindowsSuffice | crates/tachyon-bytecode/src/verify.rs:72-89 | A layout accepted against these depths has room for every protected range and finalizer body that covers an offset. |
| BytecodeHandlers.FinalizerEndIsStart | crates/tachyon-bytecode/src/verify.rs:225-239 | A finalizer's exclusive end is a real instruction start, never the code end. |
| BytecodeHandlers.FinalizerEndsWithResume | crates/tachyon-bytecode/src/verify.rs:225-239 | The scan answers whether the instruction that ends there resumes a completion. |
| BytecodeHandlers.MeasureDepths | crates/tachyon-bytecode/src/verify.rs:207-223 | The nested loops compute the three maxima exactly. |
| BytecodeEnvironments.ScanDepths | crates/tachyon-bytecode/src/verify.rs:428-500 | The linear scan accepts exactly when no environment is left or initialised at depth zero and all are closed at the end, and records the depth of every boundary. |
| BytecodeEnvironments.CheckJumps | crates/tachyon-bytecode/src/verify.rs:501-550 | Accepts exactly when plain jumps keep the depth and abrupt ones name their target's depth without raising it. |
| BytecodeEnvironments.ValidateEnvironments | crates/tachyon-bytecode/src/verify.rs:428-564 | Accepts exactly the functions with one static depth per offset that agrees along every jump and at every handler (said by counting in `BytecodeDepths.EnvironmentsIff`). |
| BytecodeDepths.EnvironmentsIff | crates/tachyon-bytecode/src/verify.rs:428-564 | Accepted are exactly the functions in which, counting environments opened minus closed, none is closed unopened, all are closed at the end, jumps and handlers agree with the count of where they go, breaks name an open depth, and each initialised slot exists in the environment opened last. |
| BytecodeEnvironments.ValidateFinally | crates/tachyon-bytecode/src/verify.rs:279-339 | Accepts exactly when every completion instruction has the finalizer it needs, which is when it has something to do (`BytecodeFinalizers.FinallyAcceptedIff`). |
| BytecodeFinalizers.EnterAllowedIff | crates/tachyon-bytecode/src/verify.rs:286-294 | `EnterFinally` is allowed at exactly the instructions where some agreeing state can step. |
| BytecodeFinalizers.ResumeAllowedIff | crates/tachyon-bytecode/src/verify.rs:295-299 | `ResumeCompletion` is allowed at exactly the instructions where some agreeing state replays an ordinary completion and comes out right behind the body of its finalizer. |
| BytecodeFinalizers.BreakAllowedIff | crates/tachyon-bytecode/src/verify.rs:300-330 | A break is allowed exactly where it closes an environment, a finalizer takes it, or it exits one that may be running. |
| BytecodeFinalizers.FinallyAcceptedIff | crates/tachyon-bytecode/src/verify.rs:279-339 | Accepted are exactly the functions whose completion instructions all have something to do. |
| BytecodeRuns.StepStaysOnStart | crates/tachyon-bytecode/src/verify.rs:844-878 | Each step of a structurally verified function ends on an instruction start. |
| BytecodeRuns.RunsStayOnStarts | crates/tachyon-bytecode/src/verify.rs:879-1320 | Every run stays on decodable starts inside the code, and every register the executed instruction reads or writes, listed as the interpreter uses them, is below the count but for the record base of a class without fields. |
| BytecodeRuns.RunsUseOperandsInRange | crates/tachyon-bytecode/src/verify.rs:879-1320 | In every run of a wholly verified function the executed instruction uses existing registers, scope names and slots if and only if it is none of the five unchecked cases. |
| BytecodeRuns.StepAgrees | crates/tachyon-bytecode/src/verify.rs:428-564 | From a state whose depth is the static one, every step, `EnterFinally` only if aligned, leads to such a state. |
| BytecodeRuns.AgreementPreservedIffAligned | crates/tachyon-bytecode/src/verify.rs:551-562 | Steps preserve 'dynamic depth is static depth' if and only if every `EnterFinally` sits at the depth its innermost finalizer records, which validation does not compare. |
| BytecodeRuns.MisalignedStep | crates/tachyon-vm/src/interpreter.rs:2219-2232 | From any misaligned `EnterFinally` a concrete step leads to a wrong depth. |
| BytecodeRuns.RunsAgree | crates/tachyon-bytecode/src/verify.rs:428-564 | In every run of an accepted, aligned function the environment depth equals the static one, none is left or initialised at depth zero, and no abrupt jump raises it. |
| BytecodeRuns.DispatchAgrees | crates/tachyon-vm/src/interpreter.rs:9610-9700 | Routing a completion through handlers and finalizers restores exactly the static depth of where it lands. |
| BytecodeDispatch.DispatchIff | crates/tachyon-vm/src/interpreter.rs:9610-9700 | A completion that no older throw replaces goes to the innermost entry that takes it, parked on top when that is a finalizer, or, when nothing takes it, to a break's target; parked completions of the finalizers it exits are gone, exactly those. |
| BytecodeDispatch.GivesWayIff | crates/tachyon-vm/src/interpreter.rs:10068-10106 | A throw inside an iterator close that runs for a throw is replaced by the older one, routed on from the close handler's start, in exactly that case. |
| BytecodeDispatch.ReturnRunsFinalizer | crates/tachyon-vm/src/interpreter.rs:9992 | A return inside a finalizer's range runs the innermost such finalizer, with the return parked on top. |
| BytecodeDispatch.ReturnLeaves | crates/tachyon-vm/src/interpreter.rs:9983-10008 | A return around which there is no finalizer is delivered nowhere in the function: it leaves it. |
| BytecodeDispatch.BreakRunsFinalizer | crates/tachyon-vm/src/interpreter.rs:9992-10008 | A break out of a finalizer's range runs the innermost finalizer whose range it leaves, with the break parked on top. |
| BytecodeDispatch.BreakReachesTarget | crates/tachyon-vm/src/interpreter.rs:9640-9664 | A break that leaves no such range lands on its target at the depth it names. |
| BytecodeDispatch.ThrowReachesHandler | crates/tachyon-vm/src/interpreter.rs:9973-10008 | A throw is taken by the innermost entry around it, of whatever kind. |
| BytecodeDispatch.ReturnsRunFinalizers | crates/tachyon-vm/src/interpreter.rs:9992 | In every run a return statement under a finalizer is followed by the first instruction of the innermost one, with the return parked. |
| BytecodeDispatch.BreaksRunFinalizers | crates/tachyon-vm/src/interpreter.rs:9992-10008 | In every run a break statement that leaves a finalizer's range is followed by the first instruction of the innermost one, with the break parked. |
| BytecodeDispatch.BreaksReachTargets | crates/tachyon-vm/src/interpreter.rs:9640-9664 | In every run any other break statement is followed by its target at its depth. |
| BytecodeDispatch.ThrowsReachHandlers | crates/tachyon-vm/src/interpreter.rs:9973-10008 | In every run a throw statement that does not give way is followed by the handler of the innermost entry around it. |
| BytecodeDispatch.ReturnStepIff | crates/tachyon-vm/src/interpreter.rs:9610-9700 | The steps of a return statement, exactly, the end of a script's own activation included. |
| BytecodeDispatch.EnterStepIff | crates/tachyon-vm/src/interpreter.rs:10012-10035 | `EnterFinally` goes to the innermost finalizer around it, with an ordinary completion parked, and nowhere else. |
| BytecodeDispatch.ResumeStepIff | crates/tachyon-vm/src/interpreter.rs:10109-10145 | `ResumeCompletion` steps only inside the body of the finalizer on top, and then goes on behind itself or routes the parked completion on. |
| BytecodeDispatch.PlainStepIff | crates/tachyon-vm/src/interpreter.rs:888-2240 | The steps of every other instruction, exactly: to the next one, opening or closing an environment, a throw where its dispatch can end in one, or a caller's return at a generator's yield. |
| BytecodeDispatch.JumpStepIff | crates/tachyon-vm/src/interpreter.rs:888-2240 | The steps of plain and conditional jumps. |
| BytecodeDispatch.AbruptStepIff | crates/tachyon-vm/src/interpreter.rs:9610-9700 | A throw, break or continue statement is routed, and nothing else can happen at one. |
| BytecodeParking.ParkedLeast | crates/tachyon-vm/src/interpreter.rs:9973-10065 | The completions a finalizer may hold are the least solution of a flow over the code: raised ones are routed to finalizers, whose resumes and suppressed errors route them further. |
| BytecodeParking.ParkedExact | crates/tachyon-vm/src/interpreter.rs:9610-10145 | That solution holds exactly the completions in every set that the machine's steps keep to: the flow misses nothing a step can park and adds nothing. |
| BytecodeParking.NextClose | crates/tachyon-vm/src/interpreter.rs:10068-10106 | However many errors iterator closes suppress, the older throw surfaces at the start of a close handler that runs around the instruction. |
| BytecodeParking.StepSourced | crates/tachyon-vm/src/interpreter.rs:10040-10144 | Steps park only completions of that solution. |
| BytecodeRestores.DeliveredIff | crates/tachyon-vm/src/interpreter.rs:9610-9664 | A completion goes somewhere if and only if, from where suppressed iterator-close errors leave it, something takes it and restores no depth above the current one. |
| BytecodeRestores.DeliveredIffUnobstructed | crates/tachyon-bytecode/src/verify.rs:551-562 | Every completion that something takes, raised, replayed by a resume, left by suppressed errors or thrown by a script's final jobs, is delivered from every agreeing state if and only if none that the code may route at an instruction restores a depth above that instruction's, which validation does not compare. |
| BytecodeRestores.RunsDeliver | crates/tachyon-vm/src/interpreter.rs:4073-4092 | In every run of an accepted, aligned and unobstructed function each such completion is delivered. |
| BytecodeObstructed.ThrowObstructed | crates/tachyon-bytecode/src/verify.rs:551-562 | A concrete function that all validation passes accept, stuck at its first instruction: it throws into a handler that cannot be entered. |
| BytecodeReplayed.ReplayObstructed | crates/tachyon-vm/src/interpreter.rs:10109-10144 | A concrete function that all validation passes accept and a run stuck at a resume: the finalizer's depth is below the target of the break it replays. |
| BytecodeCompletions.StackedWithinBodies | crates/tachyon-vm/src/interpreter.rs:10040-10065 | Saved completions of different nested finalizers around an offset are no more than the bodies that cover it. |
| BytecodeCompletions.StepStacks | crates/tachyon-vm/src/interpreter.rs:10152-10204 | In a confined function each step keeps the saved completions those of nested finalizers around the program counter. |
| BytecodeCompletions.StackedPreservedIffConfined | crates/tachyon-bytecode/src/verify.rs:279-339 | Steps keep them so if and only if no jump or resume leaves a body that still runs and no completion the code may route there, suppressed errors included, leaves a body it preserves; validation checks none of this. |
| BytecodeCompletions.RunsFitWindow | crates/tachyon-vm/src/interpreter.rs:10224-10256 | In every run of a confined function the saved completions fit the completion window its layout reserves. |
| BytecodePileUp.CompletionsPileUp | crates/tachyon-bytecode/src/verify.rs:279-339 | A concrete function that all validation passes accept, with one reserved completion, and runs that save any number of them. |
| BytecodeMisaligned.MisalignedRun | crates/tachyon-bytecode/src/verify.rs:551-562 | A concrete function that all validation passes accept and whose run enters its finalizer one environment too deep. |

## Left out

Collector:

- Raw pointers, `unsafe` access, layout, alignment and descriptor function pointers: a payload is its list of edges, a header its type id and external charge, and a destructor call one entry of the drop history.
- The two levels are related step by step for allocation, the full sweep whether it completes or stops, and occupancy (`GcSimulation`); cards and chains exist on the collector's level only, and the Young sweep is not repeated on the table.
- GcHeap.Heap.CollectMajor: a failing trim of the Eden pool is the sweep that stopped before the first span.
- GcHeap.Heap.CollectMinor: requires that garbage of failed sweeps sits on no dirty card; beyond `GcGarbageRecords` and the step relation of `GcPartialSweeps` nothing is promised for a minor collection that traces garbage naming freed objects.
- GcHeap.Heap.SweepYoung: pool capacity and active-span caches are not modelled; an emptied span is pooled or released, whichever the caller's pool decides.
- GcHeap.Heap.DropWhite: why a drop is refused (an unknown type, an external charge that underflows) is part of `GcSweep` only.
- GcHeap.Heap.PopPendingFinalization: cleanup scheduling after the record has left the queue is outside the model.
- Intrusive remembered and young chains are sequences of span ids; the link fields in the entries are not modelled.
- Exact roots (temporary, persistent, kept objects, subsystem roots) are one sequence of references that the mutator may replace by any allocated references.
- Allocation failure is a free choice wherever the source can report it. Capacity growth and statistics other than the sweep counters are left out.
- GcBitmaps.NextSet: machine words are sequences of 64 bits; shifts, masks and trailing-zero counts are described on bits.
- GcSpans.ThreadsKept: a free link is the 16-bit value of a slot's first two bytes; byte order is not modelled.
- GcSpanTable.SpanTable.Release: free logical-span ranges are not modelled; which vacant id a new span gets is the caller's choice, and whether a range can be reserved is a free choice remembered until the release.
- GcSpanTable.SpanTable.TryAllocateInSpan: the card a new Old object dirties is part of `GcHeap` instead.
- Reuse generations, sweep states and the descriptor argument of payload access are not modelled.
- GcSweep.Sweeper.SweepFull: fragmentation, tail-slack and released-storage counters are not modelled.
- GcPauses.PauseHistogram.PercentileUpper: no bound is claimed once more than 2^64-1 pauses were recorded and counters have saturated.
- `scope.rs`, `handle.rs`, `registry.rs`, `eden.rs`, `trigger.rs`: enforced by Rust's types, or easy members beside the core.
- GcRetries.RetriedMajor: is about attempts of one kind of collection with no mutator step in between; the order of the queued records may differ from that of an uninterrupted run.

Bytecode:

- BytecodeOperands.RegistersVerifiedIff: which registers, names and slots an opcode uses is read off the interpreter's dispatch; what becomes of the values is not modelled.
- Suspend points, feedback sites, binding plans and source-map ranges: single checks that no modelled property needs.
- Slot bounds of initialisation hold for the linear scan only; a jump between regions of equal depth and different slot counts is accepted by the source, and nothing more is claimed.
- BytecodeVerifier.Verify: which error is reported first is not modelled.
- BytecodeHandlers.ValidateHandlers: the rejected entry or pair is not reported.
- BytecodeRuns.RunsAgree: values, calls and generator suspension are abstracted to their effect on the program counter, the environment depth and the saved completions of one activation; an opcode may throw if some operand values and heap make its dispatch throw, and function kinds, storage limits and refused memory are left out.
- BytecodeRestores.DeliveredIffUnobstructed: the equivalence is about agreeing states whose saved completions the code may park, reachable by a run or not.
- BytecodeCompletions.StackedPreservedIffConfined: the same for stacked states; any finalizer may hold an ordinary completion there.
- Disassembly, module building and the compiler front end.

Dates and the rest:

- CivilDates.CivilRoundTrip: integers are unbounded; on 64-bit milliseconds no intermediate value leaves 64 bits.
- The remaining internationalisation adapters, the virtual machine's objects and built-ins, the command line and the facade crate are not part of this model.
