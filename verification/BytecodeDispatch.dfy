/** Where completions go: which handler takes a throw, a return, a break, and what becomes of the finalizers that run. */
module BytecodeDispatch {
  import opened Options
  import opened BytecodeEncoding
  import opened BytecodeVerifier
  import opened BytecodeOperands
  import opened BytecodeHandlers
  import opened BytecodeEnvironments
  import opened BytecodeRuns

  /** A throw is taken by any entry around it, a return by a finalizer, a break by a finalizer whose range it leaves. */
  predicate Takes(h: Handler, c: Completion, origin: nat) {
    && h.start <= origin < h.end
    && match c
       case Ordinary => false
       case Throw => true
       case Return => h.kind == Finally || h.kind == IteratorClose
       case Jump(target, _) => h.kind != Catch && (target < h.start || h.end <= target)
  }

  /** Of the entries that take a completion the last of the table, which is the innermost. */
  predicate Innermost(p: Program, c: Completion, origin: nat, e: nat) {
    e < |p.handlers| && Takes(p.handlers[e], c, origin) && forall i | e < i < |p.handlers| :: !Takes(p.handlers[i], c, origin)
  }

  lemma SelectedIff(p: Program, c: Completion, origin: nat)
    ensures var e := FindHandler(p.handlers, |p.handlers|, origin, c);
      && (e.Some? ==> Innermost(p, c, origin, e.value))
      && (e.None? ==> forall i | 0 <= i < |p.handlers| :: !Takes(p.handlers[i], c, origin))
  {
    forall i | 0 <= i < |p.handlers|
      ensures Takes(p.handlers[i], c, origin) <==> Protects(p.handlers[i], origin) && Eligible(p.handlers[i], c)
    {
    }
  }

  /** A transfer leaves the body of a finalizer that runs: it starts outside it, or its target or the range of the
      handler it selects is not wholly inside. */
  predicate Exits(h: Handler, c: Completion, origin: nat, selected: Option<Handler>) {
    || origin < h.handler || h.handlerEnd <= origin
    || match c
       case Ordinary => false
       case Jump(target, _) => target < h.handler || h.handlerEnd <= target
       case _ => selected.None? || selected.value.start < h.handler || h.handlerEnd < selected.value.end
  }

  /** What stays parked: everything below the last finalizer that the transfer does not exit. */
  ghost predicate Remains(handlers: seq<Handler>, saved: seq<Saved>, c: Completion, origin: nat, selected: Option<Handler>,
                          kept: seq<Saved>) {
    && kept <= saved
    && (forall i | |kept| <= i < |saved| && saved[i].entry < |handlers| :: Exits(handlers[saved[i].entry], c, origin, selected))
    && (kept != [] ==> kept[|kept| - 1].entry < |handlers| && !Exits(handlers[kept[|kept| - 1].entry], c, origin, selected))
  }

  lemma {:induction false} KeptRemains(handlers: seq<Handler>, saved: seq<Saved>, c: Completion, origin: nat, selected: Option<Handler>)
    ensures Remains(handlers, saved, c, origin, selected, Kept(handlers, saved, c, origin, selected))
  {
    if saved != [] {
      var init, top := saved[..|saved| - 1], saved[|saved| - 1];
      if !(top.entry < |handlers| && Preserves(handlers[top.entry], c, origin, selected)) {
        KeptRemains(handlers, init, c, origin, selected);
        assert forall i | 0 <= i < |init| :: saved[i] == init[i];
      }
    }
  }

  lemma RemainsNotLonger(handlers: seq<Handler>, saved: seq<Saved>, c: Completion, origin: nat, selected: Option<Handler>,
                         a: seq<Saved>, b: seq<Saved>)
    requires Remains(handlers, saved, c, origin, selected, a) && Remains(handlers, saved, c, origin, selected, b)
    ensures |a| <= |b|
  {
    assert a != [] ==> saved[|a| - 1] == a[|a| - 1];
  }

  lemma RemainsUnique(handlers: seq<Handler>, saved: seq<Saved>, c: Completion, origin: nat, selected: Option<Handler>,
                      a: seq<Saved>, b: seq<Saved>)
    requires Remains(handlers, saved, c, origin, selected, a) && Remains(handlers, saved, c, origin, selected, b)
    ensures a == b
  {
    RemainsNotLonger(handlers, saved, c, origin, selected, a, b);
    RemainsNotLonger(handlers, saved, c, origin, selected, b, a);
  }

  /** A throw gives way to an older one when it leaves an iterator close that runs for it. */
  predicate GivesWay(p: Program, saved: seq<Saved>, c: Completion, origin: nat) {
    && c == Throw && saved != []
    && var top := saved[|saved| - 1];
    && top.completion == Throw && top.entry < |p.handlers| && p.handlers[top.entry].kind == IteratorClose
    && p.handlers[top.entry].handler <= origin < p.handlers[top.entry].handlerEnd
  }

  /** The state in handler `e`: at its first instruction and its depth, a finalizer with the completion parked on top. */
  ghost predicate Lands(p: Program, m: Machine, c: Completion, origin: nat, e: nat, kept: seq<Saved>, m': Machine)
    requires e < |p.handlers|
  {
    var h := p.handlers[e];
    && h.environmentDepth <= m.depth && Remains(p.handlers, m.saved, c, origin, Some(h), kept)
    && m' == Machine(h.handler, h.environmentDepth, if h.kind == Catch then kept else kept + [Saved(e, c)])
  }

  /** The state at the target of a break that crosses no finalizer. */
  ghost predicate Passes(p: Program, m: Machine, c: Completion, origin: nat, kept: seq<Saved>, m': Machine) {
    && c.Jump? && c.depth <= m.depth && Remains(p.handlers, m.saved, c, origin, None, kept)
    && m' == Machine(c.target, c.depth, kept)
  }

  /** Dispatch of a completion that does not give way: to the innermost handler that takes it or, where there is none,
      to the target of a break; a throw or return that nothing takes leaves the activation. */
  lemma DispatchIff(p: Program, m: Machine, c: Completion, origin: nat, m': Machine)
    requires !GivesWay(p, m.saved, c, origin)
    ensures Dispatches(p, m, c, origin, m')
            <==> || (exists e, kept :: Innermost(p, c, origin, e) && Lands(p, m, c, origin, e, kept, m'))
                 || ((forall i | 0 <= i < |p.handlers| :: !Takes(p.handlers[i], c, origin))
                     && exists kept :: Passes(p, m, c, origin, kept, m'))
  {
    hide Takes, Kept, Remains;
    SelectedIff(p, c, origin);
    var selected := Candidate(p, c, origin);
    var kept := Kept(p.handlers, m.saved, c, origin, selected);
    KeptRemains(p.handlers, m.saved, c, origin, selected);
    assert !Suppressed(p, m, c, origin);
    if FindHandler(p.handlers, |p.handlers|, origin, c).Some? {
      var e := FindHandler(p.handlers, |p.handlers|, origin, c).value;
      if Dispatches(p, m, c, origin, m') {
        assert Lands(p, m, c, origin, e, kept, m');
      }
      if e', k :| Innermost(p, c, origin, e') && Lands(p, m, c, origin, e', k, m') {
        assert e' == e;
        RemainsUnique(p.handlers, m.saved, c, origin, selected, kept, k);
      }
    } else {
      if Dispatches(p, m, c, origin, m') {
        assert Passes(p, m, c, origin, kept, m');
      }
      if k :| Passes(p, m, c, origin, k, m') {
        RemainsUnique(p.handlers, m.saved, c, origin, selected, kept, k);
      }
    }
  }

  /** A throw that gives way is replaced by the older one, thrown again at the start of the iterator close. */
  lemma GivesWayIff(p: Program, m: Machine, origin: nat, m': Machine)
    requires GivesWay(p, m.saved, Throw, origin)
    ensures var top, rest := m.saved[|m.saved| - 1], m.saved[..|m.saved| - 1];
      Dispatches(p, m, Throw, origin, m') <==> Dispatches(p, m.(saved := rest), Throw, p.handlers[top.entry].handler, m')
  {
    assert Suppressed(p, m, Throw, origin);
  }

  // ----- Finally blocks run -----

  lemma {:induction false} InnermostFrom(p: Program, c: Completion, origin: nat, j: nat, n: nat) returns (e: nat)
    requires j < n <= |p.handlers| && Takes(p.handlers[j], c, origin)
    requires forall i | n <= i < |p.handlers| :: !Takes(p.handlers[i], c, origin)
    ensures j <= e && Innermost(p, c, origin, e)
    decreases n
  {
    hide Takes;
    if Takes(p.handlers[n - 1], c, origin) {
      e := n - 1;
    } else {
      e := InnermostFrom(p, c, origin, j, n - 1);
    }
  }

  lemma InnermostUnique(p: Program, c: Completion, origin: nat, a: nat, b: nat)
    requires Innermost(p, c, origin, a) && Innermost(p, c, origin, b)
    ensures a == b
  {
    hide Takes;
  }

  lemma LandedIn(p: Program, m: Machine, c: Completion, origin: nat, e: nat, kept: seq<Saved>, m': Machine)
    requires e < |p.handlers| && Lands(p, m, c, origin, e, kept, m')
    ensures m'.pc == p.handlers[e].handler && m'.depth == p.handlers[e].environmentDepth
    ensures if p.handlers[e].kind == Catch then m'.saved <= m.saved
            else m'.saved != [] && m'.saved[|m'.saved| - 1] == Saved(e, c) && m'.saved[..|m'.saved| - 1] <= m.saved
  {
    hide Exits;
    if p.handlers[e].kind != Catch {
      assert m'.saved[..|m'.saved| - 1] == kept;
    }
  }

  /** What is taken lands in the innermost entry that takes it. */
  lemma TakenLands(p: Program, m: Machine, c: Completion, origin: nat, m': Machine, j: nat) returns (e: nat)
    requires Dispatches(p, m, c, origin, m') && !GivesWay(p, m.saved, c, origin) && j < |p.handlers| && Takes(p.handlers[j], c, origin)
    ensures j <= e && Innermost(p, c, origin, e)
    ensures m'.pc == p.handlers[e].handler && m'.depth == p.handlers[e].environmentDepth
    ensures if p.handlers[e].kind == Catch then m'.saved <= m.saved
            else m'.saved != [] && m'.saved[|m'.saved| - 1] == Saved(e, c) && m'.saved[..|m'.saved| - 1] <= m.saved
  {
    hide Dispatches, Takes, Lands, Passes, GivesWay;
    e := InnermostFrom(p, c, origin, j, |p.handlers|);
    DispatchIff(p, m, c, origin, m');
    var e', kept :| Innermost(p, c, origin, e') && Lands(p, m, c, origin, e', kept, m');
    InnermostUnique(p, c, origin, e, e');
    LandedIn(p, m, c, origin, e, kept, m');
  }

  /** A return inside a protected range runs the innermost finalizer around it, with the return parked on top. */
  lemma ReturnRunsFinalizer(p: Program, m: Machine, origin: nat, m': Machine, j: nat) returns (e: nat)
    requires Dispatches(p, m, Return, origin, m')
    requires j < |p.handlers| && p.handlers[j].kind != Catch && p.handlers[j].start <= origin < p.handlers[j].end
    ensures j <= e < |p.handlers| && p.handlers[e].kind != Catch && p.handlers[e].start <= origin < p.handlers[e].end
    ensures forall i | e < i < |p.handlers| && p.handlers[i].kind != Catch :: !(p.handlers[i].start <= origin < p.handlers[i].end)
    ensures m'.pc == p.handlers[e].handler && m'.depth == p.handlers[e].environmentDepth
    ensures m'.saved != [] && m'.saved[|m'.saved| - 1] == Saved(e, Return) && m'.saved[..|m'.saved| - 1] <= m.saved
  {
    hide Dispatches;
    e := TakenLands(p, m, Return, origin, m', j);
  }

  /** A return outside every finalizer goes to no handler of the activation. */
  lemma ReturnLeaves(p: Program, m: Machine, origin: nat, m': Machine)
    requires forall i | 0 <= i < |p.handlers| && p.handlers[i].kind != Catch :: !(p.handlers[i].start <= origin < p.handlers[i].end)
    ensures !Dispatches(p, m, Return, origin, m')
  {
    hide Dispatches, Remains;
    DispatchIff(p, m, Return, origin, m');
  }

  /** A break out of a protected range runs the innermost finalizer whose range it leaves, with the break parked on top. */
  lemma BreakRunsFinalizer(p: Program, m: Machine, target: nat, depth: nat, origin: nat, m': Machine, j: nat) returns (e: nat)
    requires Dispatches(p, m, Jump(target, depth), origin, m')
    requires j < |p.handlers| && p.handlers[j].kind != Catch && p.handlers[j].start <= origin < p.handlers[j].end
    requires !(p.handlers[j].start <= target < p.handlers[j].end)
    ensures j <= e < |p.handlers| && p.handlers[e].kind != Catch && p.handlers[e].start <= origin < p.handlers[e].end
    ensures !(p.handlers[e].start <= target < p.handlers[e].end)
    ensures forall i | e < i < |p.handlers| && p.handlers[i].kind != Catch && p.handlers[i].start <= origin < p.handlers[i].end ::
      p.handlers[i].start <= target < p.handlers[i].end
    ensures m'.pc == p.handlers[e].handler && m'.depth == p.handlers[e].environmentDepth
    ensures m'.saved != [] && m'.saved[|m'.saved| - 1] == Saved(e, Jump(target, depth)) && m'.saved[..|m'.saved| - 1] <= m.saved
  {
    hide Dispatches;
    e := TakenLands(p, m, Jump(target, depth), origin, m', j);
  }

  /** A break that leaves no protected range goes straight to its target, at the depth it names. */
  lemma BreakReachesTarget(p: Program, m: Machine, target: nat, depth: nat, origin: nat, m': Machine)
    requires Dispatches(p, m, Jump(target, depth), origin, m')
    requires forall i | 0 <= i < |p.handlers| && p.handlers[i].kind != Catch && p.handlers[i].start <= origin < p.handlers[i].end ::
      p.handlers[i].start <= target < p.handlers[i].end
    ensures m'.pc == target && m'.depth == depth && m'.saved <= m.saved
  {
    hide Dispatches, Kept, Exits;
    DispatchIff(p, m, Jump(target, depth), origin, m');
  }

  /** A throw that does not give way is taken by the innermost entry around it, of whatever kind. */
  lemma ThrowReachesHandler(p: Program, m: Machine, origin: nat, m': Machine, j: nat) returns (e: nat)
    requires Dispatches(p, m, Throw, origin, m') && !GivesWay(p, m.saved, Throw, origin)
    requires j < |p.handlers| && p.handlers[j].start <= origin < p.handlers[j].end
    ensures j <= e < |p.handlers| && p.handlers[e].start <= origin < p.handlers[e].end
    ensures forall i | e < i < |p.handlers| :: !(p.handlers[i].start <= origin < p.handlers[i].end)
    ensures m'.pc == p.handlers[e].handler && m'.depth == p.handlers[e].environmentDepth
    ensures if p.handlers[e].kind == Catch then m'.saved <= m.saved
            else m'.saved != [] && m'.saved[|m'.saved| - 1] == Saved(e, Throw) && m'.saved[..|m'.saved| - 1] <= m.saved
  {
    hide Dispatches, GivesWay;
    e := TakenLands(p, m, Throw, origin, m', j);
  }

  // ----- Steps of runs -----

  /** What is executed in state `m`. */
  ghost function Current(p: Program, m: Machine): (i: Instruction)
    requires Listing(p.words, p.starts) && m.pc in p.starts
    ensures |i.operands| == 3
  {
    At(p.words, p.starts, IndexOf(p.words, p.starts, m.pc))
  }

  ghost function NextOf(p: Program, m: Machine): nat
    requires Listing(p.words, p.starts) && m.pc in p.starts
  {
    Following(p.starts, |p.words|, IndexOf(p.words, p.starts, m.pc))
  }

  ghost predicate NoFinalizerAround(p: Program, origin: nat) {
    forall j | 0 <= j < |p.handlers| && p.handlers[j].kind != Catch :: !(p.handlers[j].start <= origin < p.handlers[j].end)
  }

  /** A jump is taken; a conditional one may also fall through. Neither does anything else. */
  lemma JumpStepIff(p: Program, m: Machine, m': Machine)
    requires Listing(p.words, p.starts) && m.pc in p.starts
    ensures var i := Current(p, m);
      && (i.opcode == 9 ==> (Step(p, m, m') <==> m' == m.(pc := i.operands[0])))
      && (i.opcode in {10, 24, 25} ==> (Step(p, m, m') <==> m' == m.(pc := i.operands[1]) || m' == m.(pc := NextOf(p, m))))
  {
    hide Decode, Prefix, Dispatches;
    assert MayJump(Current(p, m), m'.pc) ==> m' == m.(pc := m'.pc) ==> Step(p, m, m');
  }

  /** Opcodes whose dispatch can end in a language exception: they look names up, convert, call, define, test,
      construct, import, iterate or throw. */
  predicate Fails(op: Opcode) {
    || op == 2 || 4 <= op <= 7 || 12 <= op <= 13 || 15 <= op <= 18 || op == 26 || 28 <= op <= 30 || 32 <= op <= 33
    || 35 <= op <= 37 || 39 <= op <= 45 || 47 <= op <= 65 || op == 67 || 74 <= op <= 81 || 83 <= op <= 84 || 87 <= op <= 92
    || 94 <= op <= 102 || op == 104 || 106 <= op <= 110 || 112 <= op <= 124 || 126 <= op <= 132 || 135 <= op <= 136
    || 138 <= op <= 140 || op == 142 || 144 <= op
  }

  lemma FailsIff(op: Opcode)
    ensures CanThrow(op) <==> Fails(op)
  {
  }

  /** Any other instruction that goes on: to the next one, opening or closing its environment, or it throws where it can,
      or the caller resumes a generator at it with a return. */
  lemma PlainStepIff(p: Program, m: Machine, m': Machine)
    requires Listing(p.words, p.starts) && m.pc in p.starts && Current(p, m).opcode !in NEVER_CONTINUE + {10, 24, 25}
    ensures var op := Current(p, m).opcode;
      Step(p, m, m')
      <==> || ((op in {104, 105, 142, 143} ==> m.depth > 0)
               && m' == Machine(NextOf(p, m), m.depth + (if op in {103, 141} then 1 else if op in {105, 143} then -1 else 0), m.saved))
           || (Fails(op) && Dispatches(p, m, Throw, m.pc, m'))
           || (op == YIELD && !p.entry && Dispatches(p, m, Return, m.pc, m'))
  {
    hide Decode, Prefix, Dispatches, CanThrow, Fails;
    FailsIff(Current(p, m).opcode);
    var k := IndexOf(p.words, p.starts, m.pc);
    assert m.(saved := m.saved) == m;
    if RoutesTo(p, m, k, m') {
      var c, saved :| Routes(p, m, k, c, saved) && Dispatches(p, m.(saved := saved), c, m.pc, m');
    }
    if CanThrow(Current(p, m).opcode) && Dispatches(p, m, Throw, m.pc, m') {
      assert Routes(p, m, k, Throw, m.saved);
    }
    if Current(p, m).opcode == YIELD && !p.entry && Dispatches(p, m, Return, m.pc, m') {
      assert Routes(p, m, k, Return, m.saved);
    }
  }

  /** A throw, break or continue is routed, and nothing else can happen at one. */
  lemma AbruptStepIff(p: Program, m: Machine, m': Machine)
    requires Listing(p.words, p.starts) && m.pc in p.starts
    ensures var i := Current(p, m);
      && (i.opcode == THROW ==> (Step(p, m, m') <==> Dispatches(p, m, Throw, m.pc, m')))
      && (i.opcode in {72, 73} ==> (Step(p, m, m') <==> Dispatches(p, m, Jump(i.operands[0], i.operands[1]), m.pc, m')))
  {
    hide Decode, Prefix, Dispatches;
    var k, i := IndexOf(p.words, p.starts, m.pc), Current(p, m);
    assert m.(saved := m.saved) == m;
    if RoutesTo(p, m, k, m') {
      var c, saved :| Routes(p, m, k, c, saved) && Dispatches(p, m.(saved := saved), c, m.pc, m');
    }
    if i.opcode == THROW && Dispatches(p, m, Throw, m.pc, m') {
      assert CanThrow(THROW) && Raises(p, k, Throw);
      assert Routes(p, m, k, Throw, m.saved);
    }
    if i.opcode in {72, 73} && Dispatches(p, m, Jump(i.operands[0], i.operands[1]), m.pc, m') {
      assert Routes(p, m, k, Jump(i.operands[0], i.operands[1]), m.saved);
    }
  }

  /** A return is routed. Outside every finalizer it leaves; a script then runs its jobs, one of which may throw, and
      comes back to the return. */
  lemma ReturnStepIff(p: Program, m: Machine, m': Machine)
    requires Listing(p.words, p.starts) && m.pc in p.starts && Current(p, m).opcode in {RETURN, RETURN_UNDEFINED}
    ensures Step(p, m, m')
            <==> || Dispatches(p, m, Return, m.pc, m')
                 || (p.entry && NoFinalizerAround(p, m.pc)
                     && (m' == m.(saved := []) || Dispatches(p, m.(saved := []), Throw, m.pc, m')))
  {
    hide Decode, Prefix, Dispatches;
    SelectedIff(p, Return, m.pc);
    var k := IndexOf(p.words, p.starts, m.pc);
    assert m.(saved := m.saved) == m;
    if RoutesTo(p, m, k, m') {
      var c, saved :| Routes(p, m, k, c, saved) && Dispatches(p, m.(saved := saved), c, m.pc, m');
    }
    if Dispatches(p, m, Return, m.pc, m') {
      assert Routes(p, m, k, Return, m.saved);
    }
    if p.entry && NoFinalizerAround(p, m.pc) {
      assert Ends(p, m, k);
      assert Routes(p, m, k, Throw, []);
    }
  }

  /** In every run: a return from inside a `try` with a finally block goes into the innermost such block next. */
  lemma ReturnsRunFinalizers(p: Program, run: seq<Machine>, n: nat, j: nat) returns (e: nat)
    requires Listing(p.words, p.starts) && IsRun(p, run) && n + 1 < |run| && run[n].pc in p.starts
    requires Current(p, run[n]).opcode in {RETURN, RETURN_UNDEFINED}
    requires j < |p.handlers| && p.handlers[j].kind != Catch && p.handlers[j].start <= run[n].pc < p.handlers[j].end
    ensures j <= e < |p.handlers| && p.handlers[e].kind != Catch && p.handlers[e].start <= run[n].pc < p.handlers[e].end
    ensures forall i | e < i < |p.handlers| && p.handlers[i].kind != Catch :: !(p.handlers[i].start <= run[n].pc < p.handlers[i].end)
    ensures run[n + 1].pc == p.handlers[e].handler && run[n + 1].depth == p.handlers[e].environmentDepth
    ensures var saved := run[n + 1].saved; saved != [] && saved[|saved| - 1] == Saved(e, Return) && saved[..|saved| - 1] <= run[n].saved
  {
    hide Decode, Prefix, Dispatches, Step;
    assert Step(p, run[n], run[n + 1]);
    ReturnStepIff(p, run[n], run[n + 1]);
    e := ReturnRunsFinalizer(p, run[n], run[n].pc, run[n + 1], j);
  }

  /** In every run: a break or continue out of a `try` with a finally block goes into that block, or into one inside it. */
  lemma BreaksRunFinalizers(p: Program, run: seq<Machine>, n: nat, j: nat) returns (e: nat)
    requires Listing(p.words, p.starts) && IsRun(p, run) && n + 1 < |run| && run[n].pc in p.starts && Current(p, run[n]).opcode in {72, 73}
    requires j < |p.handlers| && p.handlers[j].kind != Catch && p.handlers[j].start <= run[n].pc < p.handlers[j].end
    requires !(p.handlers[j].start <= Current(p, run[n]).operands[0] < p.handlers[j].end)
    ensures j <= e < |p.handlers| && p.handlers[e].kind != Catch && p.handlers[e].start <= run[n].pc < p.handlers[e].end
    ensures !(p.handlers[e].start <= Current(p, run[n]).operands[0] < p.handlers[e].end)
    ensures run[n + 1].pc == p.handlers[e].handler && run[n + 1].depth == p.handlers[e].environmentDepth
    ensures var saved, i := run[n + 1].saved, Current(p, run[n]);
      saved != [] && saved[|saved| - 1] == Saved(e, Jump(i.operands[0], i.operands[1])) && saved[..|saved| - 1] <= run[n].saved
  {
    hide Decode, Prefix, Dispatches, Step;
    assert Step(p, run[n], run[n + 1]);
    AbruptStepIff(p, run[n], run[n + 1]);
    var i := Current(p, run[n]);
    e := BreakRunsFinalizer(p, run[n], i.operands[0], i.operands[1], run[n].pc, run[n + 1], j);
  }

  /** In every run: a break or continue that leaves no protected range comes to its target at the depth it names. */
  lemma BreaksReachTargets(p: Program, run: seq<Machine>, n: nat)
    requires Listing(p.words, p.starts) && IsRun(p, run) && n + 1 < |run| && run[n].pc in p.starts && Current(p, run[n]).opcode in {72, 73}
    requires forall i | 0 <= i < |p.handlers| && p.handlers[i].kind != Catch && p.handlers[i].start <= run[n].pc < p.handlers[i].end ::
      p.handlers[i].start <= Current(p, run[n]).operands[0] < p.handlers[i].end
    ensures run[n + 1].pc == Current(p, run[n]).operands[0] && run[n + 1].depth == Current(p, run[n]).operands[1]
    ensures run[n + 1].saved <= run[n].saved
  {
    hide Decode, Prefix, Dispatches, Step;
    assert Step(p, run[n], run[n + 1]);
    AbruptStepIff(p, run[n], run[n + 1]);
    var i := Current(p, run[n]);
    BreakReachesTarget(p, run[n], i.operands[0], i.operands[1], run[n].pc, run[n + 1]);
  }

  /** In every run: a throw statement that does not give way goes into the innermost handler around it. */
  lemma ThrowsReachHandlers(p: Program, run: seq<Machine>, n: nat, j: nat) returns (e: nat)
    requires Listing(p.words, p.starts) && IsRun(p, run) && n + 1 < |run| && run[n].pc in p.starts && Current(p, run[n]).opcode == THROW
    requires !GivesWay(p, run[n].saved, Throw, run[n].pc)
    requires j < |p.handlers| && p.handlers[j].start <= run[n].pc < p.handlers[j].end
    ensures j <= e < |p.handlers| && p.handlers[e].start <= run[n].pc < p.handlers[e].end
    ensures forall i | e < i < |p.handlers| :: !(p.handlers[i].start <= run[n].pc < p.handlers[i].end)
    ensures run[n + 1].pc == p.handlers[e].handler && run[n + 1].depth == p.handlers[e].environmentDepth
    ensures var saved := run[n + 1].saved;
      if p.handlers[e].kind == Catch then saved <= run[n].saved
      else saved != [] && saved[|saved| - 1] == Saved(e, Throw) && saved[..|saved| - 1] <= run[n].saved
  {
    hide Decode, Prefix, Dispatches, Step;
    assert Step(p, run[n], run[n + 1]);
    AbruptStepIff(p, run[n], run[n + 1]);
    e := ThrowReachesHandler(p, run[n], run[n].pc, run[n + 1], j);
  }

  lemma EntersInnermost(p: Program, m: Machine, m': Machine)
    ensures EntersFinally(p, m, m')
            <==> exists e ::
                   && 0 <= e < |p.handlers| && p.handlers[e].kind != Catch && p.handlers[e].start <= m.pc < p.handlers[e].end
                   && (forall i | e < i < |p.handlers| && p.handlers[i].kind != Catch :: !(p.handlers[i].start <= m.pc < p.handlers[i].end))
                   && m' == Machine(p.handlers[e].handler, m.depth, m.saved + [Saved(e, Ordinary)])
  {
    hide FindFinally;
    var found := FindFinally(p.handlers, |p.handlers|, m.pc);
    forall e | 0 <= e < |p.handlers|
      ensures IsFinalizer(p.handlers[e]) && Protects(p.handlers[e], m.pc)
              <==> p.handlers[e].kind != Catch && p.handlers[e].start <= m.pc < p.handlers[e].end
    {
    }
    if e :| 0 <= e < |p.handlers| && p.handlers[e].kind != Catch && p.handlers[e].start <= m.pc < p.handlers[e].end
            && (forall i | e < i < |p.handlers| && p.handlers[i].kind != Catch :: !(p.handlers[i].start <= m.pc < p.handlers[i].end))
            && m' == Machine(p.handlers[e].handler, m.depth, m.saved + [Saved(e, Ordinary)]) {
      assert found == Some(e);
    }
  }

  lemma EnterOnlyEnters(p: Program, m: Machine, m': Machine)
    requires Listing(p.words, p.starts) && m.pc in p.starts && Current(p, m).opcode == ENTER_FINALLY
    ensures Step(p, m, m') <==> EntersFinally(p, m, m')
  {
    hide Decode, Prefix, Dispatches, EntersFinally;
  }

  /** A finally block entered without a completion: the innermost around the instruction, at the depth of the moment. */
  lemma EnterStepIff(p: Program, m: Machine, m': Machine)
    requires Listing(p.words, p.starts) && m.pc in p.starts && Current(p, m).opcode == ENTER_FINALLY
    ensures Step(p, m, m')
            <==> exists e ::
                   && 0 <= e < |p.handlers| && p.handlers[e].kind != Catch && p.handlers[e].start <= m.pc < p.handlers[e].end
                   && (forall i | e < i < |p.handlers| && p.handlers[i].kind != Catch :: !(p.handlers[i].start <= m.pc < p.handlers[i].end))
                   && m' == Machine(p.handlers[e].handler, m.depth, m.saved + [Saved(e, Ordinary)])
  {
    hide Listing, Step, EntersFinally;
    EnterOnlyEnters(p, m, m');
    EntersInnermost(p, m, m');
  }

  /** The end of a finally block: inside the body of the finalizer whose completion is on top that completion is taken
      off and, unless it is ordinary, routed again; a return of a script may end it. Elsewhere nothing is possible. */
  lemma ResumeStepIff(p: Program, m: Machine, m': Machine)
    requires Listing(p.words, p.starts) && m.pc in p.starts && Current(p, m).opcode == RESUME_COMPLETION
    ensures Step(p, m, m')
            <==> && m.saved != []
                 && var top, rest := m.saved[|m.saved| - 1], m.saved[..|m.saved| - 1];
                 && top.entry < |p.handlers| && p.handlers[top.entry].kind != Catch
                 && p.handlers[top.entry].handler <= m.pc < p.handlers[top.entry].handlerEnd
                 && if top.completion == Ordinary then m' == Machine(NextOf(p, m), m.depth, rest)
                    else || Dispatches(p, m.(saved := rest), top.completion, m.pc, m')
                         || (p.entry && top.completion == Return && NoFinalizerAround(p, m.pc)
                             && (m' == m.(saved := []) || Dispatches(p, m.(saved := []), Throw, m.pc, m')))
  {
    hide Decode, Prefix, Dispatches;
    SelectedIff(p, Return, m.pc);
    var k := IndexOf(p.words, p.starts, m.pc);
    if RoutesTo(p, m, k, m') {
      var c, saved :| Routes(p, m, k, c, saved) && Dispatches(p, m.(saved := saved), c, m.pc, m');
      if Replaying(p, m, k) {
        assert m.saved == m.saved[..|m.saved| - 1] + [m.saved[|m.saved| - 1]];
      }
    }
    if Replaying(p, m, k) {
      var top, rest := m.saved[|m.saved| - 1], m.saved[..|m.saved| - 1];
      assert m.saved == rest + [top];
      if top.completion != Ordinary {
        assert Routes(p, m, k, top.completion, rest);
      }
      if Ends(p, m, k) {
        assert Routes(p, m, k, Throw, []);
      }
    }
  }
}
