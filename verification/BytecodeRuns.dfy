/**
 * Every run of one activation over accepted bytecode: program counter, environment depth and the
 * stack of completions saved by active finalizers.
 */
module BytecodeRuns {
  import opened Options
  import opened BytecodeEncoding
  import opened BytecodeRegisters
  import opened BytecodeVerifier
  import opened BytecodeOperands
  import opened BytecodeHandlers
  import opened BytecodeEnvironments

  datatype Completion = Ordinary | Throw | Return | Jump(target: nat, depth: nat)

  /** A completion parked while the finalizer of table entry `entry` runs. */
  datatype Saved = Saved(entry: nat, completion: Completion)

  datatype Machine = Machine(pc: nat, depth: nat, saved: seq<Saved>)

  /** `entry` tells the activation a script starts in, whose return is followed by the queued jobs. */
  datatype Program = Program(words: seq<Word>, starts: seq<nat>, handlers: seq<Handler>, registerCount: nat, entry: bool)

  const INITIAL := Machine(0, 0, [])

  /** Boundaries, registers, jump targets and the handler table have been verified. */
  ghost predicate Structured(p: Program) {
    Verified(p.words, p.starts, p.registerCount) && HandlersAccepted(p.words, p.starts, p.handlers)
  }

  ghost predicate TargetsListed(p: Program)
    requires Listing(p.words, p.starts)
  {
    && TargetsAreStarts(p.words, p.starts)
    && (forall i | 0 <= i < |p.handlers| :: p.handlers[i].handler in p.starts)
  }

  lemma StructuredTargets(p: Program)
    requires Structured(p)
    ensures TargetsListed(p)
  {
    hide Decode, Prefix, Nested, RegistersVerified, EndsWithResume;
    forall k | 0 <= k < |p.starts| && HasTarget(At(p.words, p.starts, k).opcode)
      ensures TargetOf(At(p.words, p.starts, k)) in p.starts
    {
      assert InstructionVerified(At(p.words, p.starts, k), p.starts, p.registerCount);
    }
    forall i | 0 <= i < |p.handlers| ensures p.handlers[i].handler in p.starts {
      assert EntryValid(p.words, p.starts, p.handlers[i]);
    }
  }

  /** Environment depths have been validated too. */
  ghost predicate Accepted(p: Program) {
    Structured(p) && TargetsListed(p) && EnvironmentsAccepted(p.words, p.starts, p.handlers)
  }

  // ----- Abrupt dispatch -----

  predicate Eligible(h: Handler, c: Completion) {
    match c
    case Ordinary => false
    case Throw => true
    case Return => IsFinalizer(h)
    case Jump(target, _) => IsFinalizer(h) && !Protects(h, target)
  }

  /** The last of the first `n` entries that protects the origin and takes the completion. */
  function FindHandler(handlers: seq<Handler>, n: nat, origin: nat, c: Completion): (e: Option<nat>)
    requires n <= |handlers|
    ensures e.Some? ==> e.value < n && Protects(handlers[e.value], origin) && Eligible(handlers[e.value], c)
    ensures e.None? ==> forall i | 0 <= i < n :: !(Protects(handlers[i], origin) && Eligible(handlers[i], c))
    ensures e.Some? ==> forall i | e.value < i < n :: !(Protects(handlers[i], origin) && Eligible(handlers[i], c))
  {
    if n == 0 then None
    else if Protects(handlers[n - 1], origin) && Eligible(handlers[n - 1], c) then Some(n - 1)
    else FindHandler(handlers, n - 1, origin, c)
  }

  /** The innermost finalizer around an offset, for a compiler-emitted normal exit. */
  function FindFinally(handlers: seq<Handler>, n: nat, origin: nat): (e: Option<nat>)
    requires n <= |handlers|
    ensures e.Some? ==> e.value < n && IsFinalizer(handlers[e.value]) && Protects(handlers[e.value], origin)
    ensures e.None? ==> forall i | 0 <= i < n :: !(IsFinalizer(handlers[i]) && Protects(handlers[i], origin))
    ensures e.Some? ==> forall i | e.value < i < n :: !(IsFinalizer(handlers[i]) && Protects(handlers[i], origin))
  {
    if n == 0 then None
    else if IsFinalizer(handlers[n - 1]) && Protects(handlers[n - 1], origin) then Some(n - 1)
    else FindFinally(handlers, n - 1, origin)
  }

  /**
   * Delivers a completion: into the selected handler, restoring its recorded depth, or to its jump
   * target, restoring the depth it names. A restore above the current depth fails and ends the run.
   */
  ghost predicate Delivers(p: Program, m: Machine, c: Completion, origin: nat, m': Machine) {
    match FindHandler(p.handlers, |p.handlers|, origin, c)
    case Some(e) =>
      var h := p.handlers[e];
      && h.environmentDepth <= m.depth
      && m' == Machine(h.handler, h.environmentDepth, if IsFinalizer(h) then m.saved + [Saved(e, c)] else m.saved)
    case None =>
      c.Jump? && c.depth <= m.depth && m' == Machine(c.target, c.depth, m.saved)
  }

  /** A transfer keeps the finalizer that is running when it stays inside that finalizer's body: for a
      jump when its target does, for a throw or return when the selected range does. */
  predicate Preserves(h: Handler, c: Completion, origin: nat, candidate: Option<Handler>) {
    && h.handler <= origin < h.handlerEnd
    && match c
       case Ordinary => true
       case Jump(target, _) => h.handler <= target < h.handlerEnd
       case _ => candidate.Some? && h.handler <= candidate.value.start && candidate.value.end <= h.handlerEnd
  }

  /** Saved completions left once the finalizers a transfer exits have been discarded, innermost first. */
  function Kept(handlers: seq<Handler>, saved: seq<Saved>, c: Completion, origin: nat, candidate: Option<Handler>): (k: seq<Saved>)
    ensures k <= saved
    ensures k != [] ==>
      k[|k| - 1].entry < |handlers| && Preserves(handlers[k[|k| - 1].entry], c, origin, candidate)
    decreases |saved|
  {
    if saved == [] then []
    else
      var top := saved[|saved| - 1];
      if top.entry < |handlers| && Preserves(handlers[top.entry], c, origin, candidate) then saved
      else Kept(handlers, saved[..|saved| - 1], c, origin, candidate)
  }

  function Candidate(p: Program, c: Completion, origin: nat): Option<Handler> {
    var e := FindHandler(p.handlers, |p.handlers|, origin, c);
    if e.Some? then Some(p.handlers[e.value]) else None
  }

  /** A throw inside an iterator close that is itself running for a throw gives way to the older one. */
  predicate Suppressed(p: Program, m: Machine, c: Completion, origin: nat) {
    c == Throw && m.saved != [] &&
    var top := m.saved[|m.saved| - 1];
    && top.entry < |p.handlers| && p.handlers[top.entry].kind == IteratorClose
    && BodyCovers(p.handlers[top.entry], origin) && top.completion == Throw
  }

  /** Routes a completion: suppressed iterator-close errors first, then the selected handler or target. */
  ghost predicate Dispatches(p: Program, m: Machine, c: Completion, origin: nat, m': Machine)
    decreases |m.saved|
  {
    if Suppressed(p, m, c, origin) then
      var top, rest := m.saved[|m.saved| - 1], m.saved[..|m.saved| - 1];
      Dispatches(p, m.(saved := rest), Throw, p.handlers[top.entry].handler, m')
    else
      Delivers(p, m.(saved := Kept(p.handlers, m.saved, c, origin, Candidate(p, c, origin))), c, origin, m')
  }

  // ----- What an instruction may raise -----

  const YIELD: Opcode := 18

  /** The opcodes whose dispatch never ends in a language exception: plain loads, moves and jumps,
      allocations, environment entry and exit, and the completion instructions themselves. */
  const NEVER_THROWS: set<Opcode> := {
    0, 1, 3, 8, 9, 10, 11, 14, 19, 20, 21, 22, 23, 24, 25, 27, 31, 34, 38, 46, 66, 68, 69, 70, 71, 72, 73,
    82, 85, 86, 93, 103, 105, 111, 125, 133, 134, 137, 141, 143}

  predicate CanThrow(op: Opcode) { op !in NEVER_THROWS }

  predicate IsReturn(op: Opcode) { op == RETURN || op == RETURN_UNDEFINED }

  /** A caller may resume a generator at its `Yield` with a return; scripts are no generators. */
  predicate CanReturn(p: Program, op: Opcode) { IsReturn(op) || (op == YIELD && !p.entry) }

  /** The completions instruction `k` can raise by itself. */
  ghost predicate Raises(p: Program, k: nat, c: Completion)
    requires Listing(p.words, p.starts) && k < |p.starts|
  {
    var i := At(p.words, p.starts, k);
    match c
    case Ordinary => false
    case Throw => CanThrow(i.opcode)
    case Return => CanReturn(p, i.opcode)
    case Jump(target, depth) => BreaksTo(i, target, depth)
  }

  /** `ResumeCompletion` inside the body of the finalizer whose completion is on top. */
  ghost predicate Replaying(p: Program, m: Machine, k: nat)
    requires Listing(p.words, p.starts) && k < |p.starts|
  {
    && At(p.words, p.starts, k).opcode == RESUME_COMPLETION && m.saved != []
    && m.saved[|m.saved| - 1].entry < |p.handlers| && BodyCovers(p.handlers[m.saved[|m.saved| - 1].entry], m.pc)
  }

  /** A return that no finalizer takes ends an entry activation: its saved completions are discarded and the
      queued jobs run, after which the instruction is executed again unless a cleanup callback has thrown. */
  ghost predicate Ends(p: Program, m: Machine, k: nat)
    requires Listing(p.words, p.starts) && k < |p.starts|
  {
    && p.entry && FindHandler(p.handlers, |p.handlers|, m.pc, Return).None?
    && (IsReturn(At(p.words, p.starts, k).opcode) || (Replaying(p, m, k) && m.saved[|m.saved| - 1].completion == Return))
  }

  /** At instruction `k` the machine routes `c` with `saved` still parked: raised there, replayed from
      the top, or thrown by a job after the activation's return. */
  ghost predicate Routes(p: Program, m: Machine, k: nat, c: Completion, saved: seq<Saved>)
    requires Listing(p.words, p.starts) && k < |p.starts|
  {
    || (Raises(p, k, c) && saved == m.saved)
    || (Replaying(p, m, k) && c != Ordinary && m.saved == saved + [Saved(m.saved[|m.saved| - 1].entry, c)])
    || (Ends(p, m, k) && c == Throw && saved == [])
  }

  // ----- Steps -----

  /** Falling through to the next instruction; leaving or initializing needs an open environment. */
  ghost predicate FallsThrough(p: Program, m: Machine, i: Instruction, next: nat, m': Machine) {
    && i.opcode !in NEVER_CONTINUE && (NeedsEnvironment(i.opcode) ==> m.depth > 0)
    && m' == m.(pc := next, depth := m.depth + DepthChange(i.opcode))
  }

  /** An ordinary completion is resumed by going on behind the finalizer. */
  ghost predicate Resumes(p: Program, m: Machine, k: nat, m': Machine)
    requires Listing(p.words, p.starts) && k < |p.starts|
  {
    && Replaying(p, m, k) && m.saved[|m.saved| - 1].completion == Ordinary
    && m' == m.(pc := Following(p.starts, |p.words|, k), saved := m.saved[..|m.saved| - 1])
  }

  ghost predicate EntersFinally(p: Program, m: Machine, m': Machine) {
    var e := FindFinally(p.handlers, |p.handlers|, m.pc);
    e.Some? && m' == Machine(p.handlers[e.value].handler, m.depth, m.saved + [Saved(e.value, Ordinary)])
  }

  ghost predicate RoutesTo(p: Program, m: Machine, k: nat, m': Machine)
    requires Listing(p.words, p.starts) && k < |p.starts|
  {
    exists c, saved :: Routes(p, m, k, c, saved) && Dispatches(p, m.(saved := saved), c, m.pc, m')
  }

  ghost predicate Step(p: Program, m: Machine, m': Machine)
    requires Listing(p.words, p.starts)
  {
    m.pc in p.starts &&
    var k := IndexOf(p.words, p.starts, m.pc);
    var i := At(p.words, p.starts, k);
    || FallsThrough(p, m, i, Following(p.starts, |p.words|, k), m')
    || (MayJump(i, m'.pc) && m' == m.(pc := m'.pc))
    || (i.opcode == ENTER_FINALLY && EntersFinally(p, m, m'))
    || Resumes(p, m, k, m')
    || RoutesTo(p, m, k, m')
    || (Ends(p, m, k) && m' == m.(saved := []))
  }

  ghost predicate IsRun(p: Program, run: seq<Machine>)
    requires Listing(p.words, p.starts)
  {
    run != [] && run[0] == INITIAL && forall i | 0 <= i < |run| - 1 :: Step(p, run[i], run[i + 1])
  }

  // ----- The program counter stays on instruction starts -----

  ghost predicate SavedListed(p: Program, saved: seq<Saved>) {
    forall i | 0 <= i < |saved| ::
      saved[i].entry < |p.handlers| && (saved[i].completion.Jump? ==> saved[i].completion.target in p.starts)
  }

  ghost predicate OnStart(p: Program, m: Machine) { m.pc in p.starts && SavedListed(p, m.saved) }

  lemma {:induction false} DispatchStaysListed(p: Program, m: Machine, c: Completion, origin: nat, m': Machine)
    requires Listing(p.words, p.starts) && TargetsListed(p) && SavedListed(p, m.saved) && Dispatches(p, m, c, origin, m')
    requires c.Jump? ==> c.target in p.starts
    ensures OnStart(p, m')
    decreases |m.saved|
  {
    hide Decode, Prefix, Kept;
    if Suppressed(p, m, c, origin) {
      var top, rest := m.saved[|m.saved| - 1], m.saved[..|m.saved| - 1];
      DispatchStaysListed(p, m.(saved := rest), Throw, p.handlers[top.entry].handler, m');
    } else {
      assert SavedListed(p, Kept(p.handlers, m.saved, c, origin, Candidate(p, c, origin)));
    }
  }

  /** Falling through never leaves the code: the last instruction is terminal. */
  lemma FallThroughListed(p: Program, k: nat)
    requires Structured(p) && k < |p.starts| && !IsTerminal(At(p.words, p.starts, k).opcode)
    ensures Following(p.starts, |p.words|, k) in p.starts && k + 1 < |p.starts|
  {
    hide InstructionVerified, Decode, Prefix;
    assert k != |p.starts| - 1;
  }

  lemma StepStaysOnStart(p: Program, m: Machine, m': Machine)
    requires Structured(p) && OnStart(p, m) && Step(p, m, m')
    ensures OnStart(p, m')
  {
    hide Decode, Prefix, InstructionVerified, HandlersAccepted, Dispatches, Listing, Routes, Ends;
    StructuredTargets(p);
    var k := IndexOf(p.words, p.starts, m.pc);
    var i, next := At(p.words, p.starts, k), Following(p.starts, |p.words|, k);
    if FallsThrough(p, m, i, next, m') {
      FallThroughListed(p, k);
    } else if RoutesTo(p, m, k, m') {
      var c, saved :| Routes(p, m, k, c, saved) && Dispatches(p, m.(saved := saved), c, m.pc, m');
      RoutedListed(p, m, k, c, saved);
      DispatchStaysListed(p, m.(saved := saved), c, m.pc, m');
    } else if Resumes(p, m, k, m') {
      ResumeListed(p, k);
    }
  }

  /** Routing a completion only takes parked ones off the top. */
  lemma RoutedPrefix(p: Program, m: Machine, k: nat, c: Completion, saved: seq<Saved>)
    requires Listing(p.words, p.starts) && k < |p.starts| && Routes(p, m, k, c, saved)
    ensures |saved| <= |m.saved| && forall i | 0 <= i < |saved| :: saved[i] == m.saved[i]
  {
    hide Decode, Prefix, Raises, Ends;
    if m.saved != [] && m.saved == saved + [Saved(m.saved[|m.saved| - 1].entry, c)] {
      assert m.saved[..|saved|] == saved;
    }
  }

  lemma RoutedListed(p: Program, m: Machine, k: nat, c: Completion, saved: seq<Saved>)
    requires Listing(p.words, p.starts) && TargetsListed(p) && OnStart(p, m) && k < |p.starts| && Routes(p, m, k, c, saved)
    ensures SavedListed(p, saved) && (c.Jump? ==> c.target in p.starts)
  {
    hide Decode, Prefix;
    RoutedPrefix(p, m, k, c, saved);
  }

  /** Nor does resuming: the last instruction of a finalizer body is followed by another. */
  lemma ResumeListed(p: Program, k: nat)
    requires Structured(p) && k < |p.starts| && At(p.words, p.starts, k).opcode == RESUME_COMPLETION
    ensures Following(p.starts, |p.words|, k) in p.starts && k + 1 < |p.starts|
  {
    hide InstructionVerified, Decode, Prefix, HandlersAccepted;
    FallThroughListed(p, k);
  }

  /** Every run stays on decodable instruction starts, and what it executes touches only registers below the count,
      but for the record base of a class without fields. */
  lemma {:induction false} RunsStayOnStarts(p: Program, run: seq<Machine>, n: nat)
    requires Structured(p) && IsRun(p, run) && n < |run|
    ensures OnStart(p, run[n]) && run[n].pc < |p.words| && Decode(p.words, run[n].pc).Ok?
    ensures var i := Decode(p.words, run[n].pc).instruction;
      forall r: nat | Touches(i.opcode, i.operands, r) && !Unchecked(i.opcode, i.operands, r) :: r < p.registerCount
  {
    hide Step, RegistersVerified, HandlersAccepted, Touches;
    if n > 0 {
      RunsStayOnStarts(p, run, n - 1);
      StepStaysOnStart(p, run[n - 1], run[n]);
    }
    var k := IndexOf(p.words, p.starts, run[n].pc);
    var i := At(p.words, p.starts, k);
    assert Adjacent(p.words, p.starts[k], Following(p.starts, |p.words|, k));
    assert InstructionVerified(i, p.starts, p.registerCount);
    forall r: nat | Touches(i.opcode, i.operands, r) && !Unchecked(i.opcode, i.operands, r) ensures r < p.registerCount {
      CheckedRegisters(i.opcode, i.operands, p.registerCount, r);
    }
  }

  /** In every run of a wholly verified function what is executed uses registers, scope names and slots that exist,
      unless the instruction is one of the five cases that verification leaves unchecked. */
  lemma RunsUseOperandsInRange(p: Program, pool: Pool, run: seq<Machine>, n: nat)
    requires Structured(p) && FullyVerified(p.words, p.starts, p.registerCount, pool) && IsRun(p, run) && n < |run|
    ensures Decode(p.words, run[n].pc).Ok?
    ensures var i := Decode(p.words, run[n].pc).instruction;
      OperandsInRange(i, p.registerCount, pool) <==> !LeftUnchecked(i, p.registerCount, pool)
  {
    hide Step, RegistersVerified, HandlersAccepted, OperandsInRange, LeftUnchecked, OperandsVerified;
    RunsStayOnStarts(p, run, n);
    var k := IndexOf(p.words, p.starts, run[n].pc);
    var i := At(p.words, p.starts, k);
    assert InstructionVerified(i, p.starts, p.registerCount);
    OperandsInRangeIff(i, p.registerCount, pool);
  }

  // ----- Dynamic depth equals static depth -----

  ghost predicate CompletionAgrees(p: Program, c: Completion)
    requires Listing(p.words, p.starts)
  {
    c.Jump? ==> c.target in p.starts && c.depth == DepthAt(p.words, p.starts, c.target)
  }

  ghost predicate SavedAgree(p: Program, saved: seq<Saved>)
    requires Listing(p.words, p.starts)
  {
    forall i | 0 <= i < |saved| :: saved[i].entry < |p.handlers| && CompletionAgrees(p, saved[i].completion)
  }

  /** The machine is at an instruction start with exactly the static depth of that offset. */
  ghost predicate Agrees(p: Program, m: Machine)
    requires Listing(p.words, p.starts)
  {
    m.pc in p.starts && m.depth == DepthAt(p.words, p.starts, m.pc) && SavedAgree(p, m.saved)
  }

  /**
   * `EnterFinally` redirects the program counter without restoring a depth, and validation does not
   * compare the two ends of that edge. This is the missing check: the instruction sits at the depth its
   * innermost covering finalizer records.
   */
  ghost predicate AlignedAt(p: Program, k: nat)
    requires Listing(p.words, p.starts) && k < |p.starts|
  {
    At(p.words, p.starts, k).opcode == ENTER_FINALLY ==>
      var e := FindFinally(p.handlers, |p.handlers|, p.starts[k]);
      e.Some? ==> p.handlers[e.value].environmentDepth == |Stack(p.words, p.starts, k)|
  }

  ghost predicate Aligned(p: Program)
    requires Listing(p.words, p.starts)
  {
    forall k | 0 <= k < |p.starts| :: AlignedAt(p, k)
  }

  lemma DeliveryAgrees(p: Program, m: Machine, c: Completion, origin: nat, m': Machine)
    requires Accepted(p) && SavedAgree(p, m.saved) && CompletionAgrees(p, c) && Delivers(p, m, c, origin, m')
    ensures Agrees(p, m')
  {
    hide Decode, Prefix, Structured, DepthAt;
    AcceptedListing(p);
  }

  lemma {:induction false} DispatchAgrees(p: Program, m: Machine, c: Completion, origin: nat, m': Machine)
    requires Accepted(p) && SavedAgree(p, m.saved) && CompletionAgrees(p, c) && Dispatches(p, m, c, origin, m')
    ensures Agrees(p, m')
    decreases |m.saved|
  {
    hide Decode, Listing, Structured, DepthAt, Kept;
    AcceptedListing(p);
    if Suppressed(p, m, c, origin) {
      var top, rest := m.saved[|m.saved| - 1], m.saved[..|m.saved| - 1];
      DispatchAgrees(p, m.(saved := rest), Throw, p.handlers[top.entry].handler, m');
    } else {
      DeliveryAgrees(p, m.(saved := Kept(p.handlers, m.saved, c, origin, Candidate(p, c, origin))), c, origin, m');
    }
  }

  /** Depth of the next instruction in linear order. */
  lemma FallThroughDepth(p: Program, k: nat)
    requires Accepted(p) && k + 1 < |p.starts|
    ensures var i := At(p.words, p.starts, k);
      var d := |Stack(p.words, p.starts, k)|;
      && (NeedsEnvironment(i.opcode) ==> d > 0)
      && DepthAt(p.words, p.starts, p.starts[k]) == d
      && DepthAt(p.words, p.starts, p.starts[k + 1])
         == d + DepthChange(i.opcode)
  {
    hide Decode, Prefix, InstructionVerified, HandlersAccepted, JumpDepthAllowed;
    IndexUnique(p.words, p.starts, k);
    IndexUnique(p.words, p.starts, k + 1);
    assert StackAllows(At(p.words, p.starts, k), Stack(p.words, p.starts, k));
    assert Stack(p.words, p.starts, k + 1) == After(At(p.words, p.starts, k), Stack(p.words, p.starts, k));
  }

  lemma JumpDepth(p: Program, k: nat)
    requires Accepted(p) && k < |p.starts| && HasTarget(At(p.words, p.starts, k).opcode)
    ensures var i := At(p.words, p.starts, k);
      && TargetOf(i) in p.starts
      && JumpDepthAllowed(i, DepthAt(p.words, p.starts, p.starts[k]), DepthAt(p.words, p.starts, TargetOf(i)))
  {
    hide Decode, Prefix, InstructionVerified, HandlersAccepted, StackAllows, Stack;
    IndexUnique(p.words, p.starts, k);
    assert JumpAllowed(p.words, p.starts, k);
  }

  lemma FinallyDepth(p: Program, m: Machine, k: nat, m': Machine)
    requires Accepted(p) && Agrees(p, m) && k < |p.starts| && p.starts[k] == m.pc && EntersFinally(p, m, m')
    requires At(p.words, p.starts, k).opcode == ENTER_FINALLY
    ensures Agrees(p, m') <==> AlignedAt(p, k)
  {
    hide Decode, Prefix, Structured, Stack;
    AcceptedListing(p);
    IndexUnique(p.words, p.starts, k);
    var e := FindFinally(p.handlers, |p.handlers|, m.pc).value;
    assert m'.saved == m.saved + [Saved(e, Ordinary)];
  }

  /** One step from an agreeing state agrees again, `EnterFinally` provided it is aligned. */
  lemma StepAgrees(p: Program, m: Machine, m': Machine)
    requires Accepted(p) && Agrees(p, m) && Step(p, m, m')
    requires AlignedAt(p, IndexOf(p.words, p.starts, m.pc))
    ensures Agrees(p, m')
  {
    hide Decode, Listing, Accepted, DepthAt, Dispatches, AlignedAt, Routes, Ends, Replaying;
    AcceptedListing(p);
    var k := IndexOf(p.words, p.starts, m.pc);
    var i, next := At(p.words, p.starts, k), Following(p.starts, |p.words|, k);
    if FallsThrough(p, m, i, next, m') {
      AcceptedStructured(p);
      FallThroughListed(p, k);
      FallThroughDepth(p, k);
    } else if (i.opcode == JUMP || IsConditional(i.opcode)) && m' == m.(pc := TargetOf(i)) {
      JumpDepth(p, k);
    } else if i.opcode == ENTER_FINALLY && EntersFinally(p, m, m') {
      FinallyDepth(p, m, k, m');
    } else if RoutesTo(p, m, k, m') {
      var c, saved :| Routes(p, m, k, c, saved) && Dispatches(p, m.(saved := saved), c, m.pc, m');
      RoutedAgrees(p, m, k, c, saved);
      DispatchAgrees(p, m.(saved := saved), c, m.pc, m');
    } else if Resumes(p, m, k, m') {
      ResumeAgrees(p, m, k, m');
    }
  }

  lemma RoutedAgrees(p: Program, m: Machine, k: nat, c: Completion, saved: seq<Saved>)
    requires Accepted(p) && Listing(p.words, p.starts) && Agrees(p, m) && k < |p.starts| && Routes(p, m, k, c, saved)
    ensures SavedAgree(p, saved) && CompletionAgrees(p, c)
  {
    hide Decode, Prefix, Structured, DepthAt, EnvironmentsAccepted, Ends;
    RoutedPrefix(p, m, k, c, saved);
    if Raises(p, k, c) && c.Jump? {
      JumpDepth(p, k);
    }
    if Replaying(p, m, k) && c != Ordinary && m.saved == saved + [Saved(m.saved[|m.saved| - 1].entry, c)] {
      assert m.saved[|m.saved| - 1].completion == c;
    }
  }

  lemma AcceptedListing(p: Program)
    requires Accepted(p)
    ensures Listing(p.words, p.starts)
  {
  }

  lemma AcceptedStructured(p: Program)
    requires Accepted(p)
    ensures Structured(p)
  {
  }

  lemma ResumeAgrees(p: Program, m: Machine, k: nat, m': Machine)
    requires Accepted(p) && Listing(p.words, p.starts) && Agrees(p, m) && k < |p.starts| && p.starts[k] == m.pc
    requires Resumes(p, m, k, m')
    ensures Agrees(p, m')
  {
    hide Decode, Listing, Structured, EnvironmentsAccepted, DepthAt;
    AcceptedStructured(p);
    ResumeListed(p, k);
    FallThroughDepth(p, k);
  }

  /** Exactly when steps preserve agreement: when every `EnterFinally` is aligned. */
  lemma AgreementPreservedIffAligned(p: Program)
    requires Accepted(p) && FinallyAccepted(p.words, p.starts, p.handlers)
    ensures (forall m, m' | Agrees(p, m) && Step(p, m, m') :: Agrees(p, m')) <==> Aligned(p)
  {
    hide Decode, Prefix, Accepted, Step, Agrees, AlignedAt, FinallyAccepted;
    AcceptedListing(p);
    if Aligned(p) {
      forall m, m' | Agrees(p, m) && Step(p, m, m') ensures Agrees(p, m') {
        AgreesOnStart(p, m);
        StepAgrees(p, m, m');
      }
    }
    if forall m, m' | Agrees(p, m) && Step(p, m, m') :: Agrees(p, m') {
      forall k | 0 <= k < |p.starts| ensures AlignedAt(p, k) {
        if !AlignedAt(p, k) {
          var m, m' := MisalignedStep(p, k);
        }
      }
    }
  }

  lemma AgreesOnStart(p: Program, m: Machine)
    requires Listing(p.words, p.starts) && Agrees(p, m)
    ensures m.pc in p.starts
  {
  }

  /** From the agreeing state at a misaligned `EnterFinally` the next state disagrees. */
  lemma MisalignedStep(p: Program, k: nat) returns (m: Machine, m': Machine)
    requires Accepted(p) && FinallyAccepted(p.words, p.starts, p.handlers) && k < |p.starts| && !AlignedAt(p, k)
    ensures Agrees(p, m) && Step(p, m, m') && !Agrees(p, m')
  {
    hide Decode, Prefix, Accepted, Dispatches;
    AcceptedListing(p);
    IndexUnique(p.words, p.starts, k);
    assert FinallyAllowed(p.handlers, At(p.words, p.starts, k), p.starts[k], Following(p.starts, |p.words|, k), |Stack(p.words, p.starts, k)|);
    m := Machine(p.starts[k], DepthAt(p.words, p.starts, p.starts[k]), []);
    var e := FindFinally(p.handlers, |p.handlers|, m.pc);
    m' := Machine(p.handlers[e.value].handler, m.depth, m.saved + [Saved(e.value, Ordinary)]);
    assert EntersFinally(p, m, m');
    FinallyDepth(p, m, k, m');
  }

  /** In every run of an accepted, aligned function the dynamic depth is the static depth of the offset;
      no environment is left or initialized at depth zero and no abrupt jump raises the depth. */
  lemma {:induction false} RunsAgree(p: Program, run: seq<Machine>, n: nat)
    requires Accepted(p) && Aligned(p) && IsRun(p, run) && n < |run|
    ensures Agrees(p, run[n])
    ensures var i := At(p.words, p.starts, IndexOf(p.words, p.starts, run[n].pc));
      && (NeedsEnvironment(i.opcode) ==> run[n].depth > 0)
      && (forall target: nat, depth: nat | BreaksTo(i, target, depth) :: depth <= run[n].depth)
  {
    hide Decode, Accepted, Step, DepthAt, AlignedAt;
    AcceptedListing(p);
    if n > 0 {
      RunsAgree(p, run, n - 1);
      assert AlignedAt(p, IndexOf(p.words, p.starts, run[n - 1].pc));
      StepAgrees(p, run[n - 1], run[n]);
    } else {
      InitialAgrees(p);
    }
    StateBounds(p, run[n]);
  }

  lemma InitialAgrees(p: Program)
    requires Accepted(p)
    ensures Agrees(p, INITIAL)
  {
    hide Decode, HandlersAccepted, InstructionVerified, EnvironmentsAccepted;
    assert p.starts[0] == 0;
    IndexUnique(p.words, p.starts, 0);
  }

  lemma StateBounds(p: Program, m: Machine)
    requires Accepted(p) && Agrees(p, m)
    ensures var i := At(p.words, p.starts, IndexOf(p.words, p.starts, m.pc));
      && (NeedsEnvironment(i.opcode) ==> m.depth > 0)
      && (forall target: nat, depth: nat | BreaksTo(i, target, depth) :: depth <= m.depth)
  {
    hide Decode, Prefix, Structured, SavedAgree;
    AcceptedListing(p);
    var k := IndexOf(p.words, p.starts, m.pc);
    assert StackAllows(At(p.words, p.starts, k), Stack(p.words, p.starts, k));
    if IsAbrupt(At(p.words, p.starts, k).opcode) {
      JumpDepth(p, k);
    }
  }
}
