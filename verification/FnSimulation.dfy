/** Programs with functions and locals: the items, and so the linked bytes, follow the interpreter through calls of
    any nesting and recursion. */
module FnSimulation {
  import opened Wrappers
  import opened Words
  import opened Memory
  import opened Regs
  import opened Isa
  import opened Assembly
  import opened Ast
  import opened Codegen
  import opened Semantics
  import opened ExprProofs
  import opened MarshalProofs
  import opened SourceLanguage
  import opened Frames
  import opened Flow
  import opened Calls
  import opened FnLanguage
  import opened FnStatements
  import ProgramSimulation

  // ---- the slots of a frame ----

  lemma {:induction false} SlotHasLocal(locals: seq<(string, nat)>, n: string) returns (k: nat)
    requires n in LocalSlots(locals)
    ensures k < |locals| && locals[k].0 == n && LocalSlots(locals)[n] == SlotOf(locals, k)
    decreases |locals|
  {
    var last := |locals| - 1;
    if locals[last].0 == n {
      k := last;
      assert locals[..last + 1] == locals;
    } else {
      k := SlotHasLocal(locals[..last], n);
      assert locals[..last][..k + 1] == locals[..k + 1];
    }
  }

  lemma SlotFits(locals: seq<(string, nat)>, n: string)
    requires n in LocalSlots(locals) && Sized(locals)
    ensures -(32 + TotalSize(locals)) <= LocalSlots(locals)[n] && LocalSlots(locals)[n] + 8 <= -32
  {
    hide LocalSlots, TotalSize, SlotOf;
    var k := SlotHasLocal(locals, n);
    SlotBounds(locals, k);
    WordsApartIff(locals);
  }

  lemma SlotsDiffer(locals: seq<(string, nat)>, a: string, b: string)
    requires a in LocalSlots(locals) && b in LocalSlots(locals) && a != b && Sized(locals)
    ensures var s := LocalSlots(locals); s[a] + 8 <= s[b] || s[b] + 8 <= s[a]
  {
    hide LocalSlots, TotalSize, SlotOf;
    var i := SlotHasLocal(locals, a);
    var j := SlotHasLocal(locals, b);
    WordsApartIff(locals);
  }

  /** The frame the prologue makes. */
  lemma FrameSlots(f: FnDef, c: Ctx, t: Machine)
    requires Sized(f.locals) && t.regs[RSP] as int == t.regs[RBP] - 32 - TotalSize(f.locals)
    ensures Slots(Inside(f, c), t, t.regs[RBP] as int - 32)
  {
    hide LocalSlots, TotalSize, ArgRegs;
    var here := Inside(f, c);
    forall n <- here.locals
      ensures t.regs[RSP] <= SlotAt(here, t, n) && SlotAt(here, t, n) + 8 <= t.regs[RBP] - 32
      ensures SlotAt(here, t, n) == t.regs[RBP] + here.locals[n]
    {
      SlotFits(f.locals, n);
      NoWrap(t.regs[RBP] + here.locals[n]);
    }
    forall a, b | a in here.locals && b in here.locals && a != b
      ensures SlotAt(here, t, a) + 8 <= SlotAt(here, t, b) || SlotAt(here, t, b) + 8 <= SlotAt(here, t, a)
    {
      SlotsDiffer(f.locals, a, b);
    }
  }

  // ---- arguments ----

  lemma {:induction false} AfterAllIs(args: seq<Expr>, st: FnState)
    ensures AfterAll(args, st) ==
            if AnyCompound(args) then st.(known := st.known - {R12}, flags := None) else st
  {
    if args != [] {
      var n := |args| - 1;
      AfterAllIs(args[..n], st);
      assert forall i | 0 <= i < n :: args[..n][i] == args[i];
    }
  }

  /** Arguments the interpreter can evaluate have those values on the machine, and read r12 early enough. */
  lemma {:induction false} ArgumentsSee(args: seq<Expr>, c: Ctx, st: FnState, m: Machine, lo: int, syms: Syms)
    requires WellFormed(c) && Slots(c, m, lo) && FrameMatch(c, st, m) && ArgValues(args, c, syms, st).Some?
    ensures R12Early(args) && AllReadable(args, c, m, syms)
    ensures forall i | 0 <= i < |args| :: Wrap(Value(args[i], c, m, syms)) == ArgValues(args, c, syms, st).value[i]
  {
    hide Slots, WellFormed, Value, Readable, Operand, ReadsR12, R12Intact, Compound;
    if args != [] {
      var n := |args| - 1;
      ArgumentsSee(args[..n], c, st, m, lo, syms);
      assert forall i | 0 <= i < n :: args[..n][i] == args[i];
      AfterAllIs(args[..n], st);
      OperandSees(args[n], c, AfterAll(args[..n], st), m, lo, syms);
      forall i, j | 0 <= i < j < |args| && Compound(args[i])
        ensures !ReadsR12(args[j])
      {
        if j < n {
          assert Compound(args[..n][i]) && !ReadsR12(args[..n][j]);
        } else {
          assert Compound(args[..n][i]) && AnyCompound(args[..n]);
        }
      }
    }
  }

  lemma {:induction false} GivenAt(regs: RegFile, vs: seq<Word>, r: Reg)
    requires |vs| <= 6
    ensures forall i | 0 <= i < |vs| :: Given(regs, vs)[CALL_ARGS[i]] == vs[i]
    ensures r !in CALL_ARGS[..|vs|] ==> Given(regs, vs)[r] == regs[r]
  {
    if vs != [] {
      var n := |vs| - 1;
      GivenAt(regs, vs[..n], r);
      assert CALL_ARGS[..n + 1] == CALL_ARGS[..n] + [CALL_ARGS[n]];
      TargetsDistinct();
    }
  }

  lemma NotInFrame()
    ensures forall i | 0 <= i < 6 :: CALL_ARGS[i] != RSP && CALL_ARGS[i] != RBP
    ensures RSP !in USER && RBP !in USER
  {
  }

  /** The registers with which the callee starts: those of the caller behind the marshalling. */
  lemma EnterMatches(here: Ctx, st: FnState, vs: seq<Word>, m1: Machine, t: Machine)
    requires |vs| <= 6 && st.known <= USER && forall q: Reg | q != RSP && q != RBP :: t.regs[q] == m1.regs[q]
    requires forall i | 0 <= i < |vs| :: m1.regs[CALL_ARGS[i]] == vs[i]
    requires forall r <- st.known :: r !in CALL_ARGS[..|vs|] ==> m1.regs[r] == st.regs[r]
    ensures FrameMatch(here, Enter(st, vs), t)
  {
    hide Given;
    NotInFrame();
    forall r <- Enter(st, vs).known
      ensures r in USER && t.regs[r] == Enter(st, vs).regs[r]
    {
      GivenAt(st.regs, vs, r);
      if r in CALL_ARGS[..|vs|] {
        var i :| 0 <= i < |vs| && CALL_ARGS[i] == r;
      }
    }
  }

  // ---- programs ----

  /** The functions with the indices of their items, the context they are compiled in, the stack space of the largest
      frame, and what the operands of one statement need. */
  datatype Fns = Fns(defs: seq<FnDef>, at: seq<nat>, c: Ctx, frame: nat, work: nat)

  predicate StmtFits(s: Stmt, work: nat) {
    match s
    case CallFn(_, args) => 8 * MaxDepth(FirstSix(args)) + 64 <= work
    case RetVal(e) => 8 * Depth(e) <= work
    case _ => 8 * StmtDepth(s) + 64 <= work
  }

  predicate BodyFits(body: seq<Stmt>, work: nat) {
    forall i | 0 <= i < |body| :: StmtFits(body[i], work)
  }

  predicate FnFits(f: FnDef, p: Fns) {
    Sized(f.locals) && FrameSize(f.locals) <= p.frame && BodyFits(f.body, p.work)
  }

  ghost predicate Loaded(x: Listing, p: Fns) {
    && |p.at| == |p.defs|
    && forall k | 0 <= k < |p.defs| ::
         FnCode(p.defs[k], p.c).Some? && Stands(x, p.at[k], FnCode(p.defs[k], p.c).value) && FnFits(p.defs[k], p)
  }

  /** Labels are bound once and calls return to different places. */
  ghost predicate Ready(x: Listing, p: Fns) {
    Unique(x.items) && Apart(x) && Loaded(x, p)
  }

  /** Stack space for `depth` nested calls. */
  function Need(p: Fns, depth: nat): nat {
    if depth == 0 then p.work else p.frame + Need(p, depth - 1)
  }

  lemma {:induction false} NeedWork(p: Fns, depth: nat)
    ensures p.work <= Need(p, depth)
  {
    if depth > 0 { NeedWork(p, depth - 1); }
  }

  /** A body of statements whose items begin at b. */
  ghost predicate BodyStands(x: Listing, b: nat, body: seq<Stmt>, here: Ctx, inFn: bool) {
    BodyCode(body, here, inFn).Some? && Stands(x, b, BodyCode(body, here, inFn).value)
  }

  /** The first item of statement i. */
  function StmtAt(b: nat, body: seq<Stmt>, here: Ctx, inFn: bool, i: nat): nat
    requires i <= |body|
  {
    match BodyCode(body[..i], here, inFn) case None => b case Some(code) => b + |code|
  }

  lemma StmtStands(x: Listing, b: nat, body: seq<Stmt>, here: Ctx, inFn: bool, i: nat)
    requires BodyStands(x, b, body, here, inFn) && i < |body|
    ensures StmtCode(body[i], here, inFn).Some?
    ensures Stands(x, StmtAt(b, body, here, inFn, i), StmtCode(body[i], here, inFn).value)
    ensures StmtAt(b, body, here, inFn, i + 1) == StmtAt(b, body, here, inFn, i) + |StmtCode(body[i], here, inFn).value|
  {
    hide StmtCode, Stands;
    ProgramSimulation.BodyPrefix(body, here, inFn, i + 1);
    assert body[..i + 1][..i] == body[..i];
    var all, part := BodyCode(body, here, inFn).value, BodyCode(body[..i + 1], here, inFn).value;
    assert all == part + all[|part|..];
    StandsPart(x, b, part, all[|part|..]);
    StandsPart(x, b, BodyCode(body[..i], here, inFn).value, StmtCode(body[i], here, inFn).value);
  }

  lemma BodyEnds(b: nat, body: seq<Stmt>, here: Ctx, inFn: bool)
    requires BodyCode(body, here, inFn).Some?
    ensures StmtAt(b, body, here, inFn, |body|) == b + |BodyCode(body, here, inFn).value|
    ensures StmtAt(b, body, here, inFn, 0) == b
  {
    assert body[..|body|] == body && body[..0] == [];
  }

  /** A label's item. */
  lemma LabelStands(x: Listing, b: nat, body: seq<Stmt>, here: Ctx, inFn: bool, k: nat, l: string)
    requires BodyStands(x, b, body, here, inFn) && k < |body| && body[k] == Label(l)
    ensures StmtAt(b, body, here, inFn, k) < |x.items| && x.items[StmtAt(b, body, here, inFn, k)] == Lab(UserLabel(l))
  {
    hide Stands, BodyCode, BodyStands;
    StmtStands(x, b, body, here, inFn, k);
    StandsItem(x, StmtAt(b, body, here, inFn, k), Lab(UserLabel(l)));
  }

  // ---- jumps ----

  lemma GotoReaches(x: Listing, b: nat, body: seq<Stmt>, here: Ctx, inFn: bool, i: nat, k: nat, m: Machine, syms: Syms)
    requires Unique(x.items) && BodyStands(x, b, body, here, inFn) && i < |body| && body[i].Goto?
    requires FindLabel(body, body[i].target) == Some(k)
    ensures Reaches(x, Spot(StmtAt(b, body, here, inFn, i), m), Spot(StmtAt(b, body, here, inFn, k), m), syms)
  {
    hide Unique, BodyStands, Stands, StmtAt, Reaches;
    var l := body[i].target;
    StmtStands(x, b, body, here, inFn, i);
    LabelStands(x, b, body, here, inFn, k, l);
    StandsItem(x, StmtAt(b, body, here, inFn, i), JmpTo(UserLabel(l)));
    TargetIs(x, StmtAt(b, body, here, inFn, k), UserLabel(l));
    ReachStep(x, Spot(StmtAt(b, body, here, inFn, i), m), Spot(StmtAt(b, body, here, inFn, k), m), syms);
  }

  lemma JumpIfReaches(x: Listing, b: nat, body: seq<Stmt>, here: Ctx, inFn: bool, i: nat, k: nat, taken: bool,
                      m: Machine, syms: Syms)
    requires Unique(x.items) && BodyStands(x, b, body, here, inFn) && i < |body| && body[i].JumpIf?
    requires CondCode(body[i].cond).Some? && Holds(CondCode(body[i].cond).value, m.flags) == Some(taken)
    requires if taken then FindLabel(body, body[i].target) == Some(k) else k == i + 1
    ensures Reaches(x, Spot(StmtAt(b, body, here, inFn, i), m), Spot(StmtAt(b, body, here, inFn, k), m), syms)
  {
    hide Unique, BodyStands, Stands, StmtAt, Reaches, Holds, CondCode;
    var l, pc := body[i].target, StmtAt(b, body, here, inFn, i);
    var cc := CondCode(body[i].cond).value;
    StmtStands(x, b, body, here, inFn, i);
    assert StmtCode(body[i], here, inFn) == Some([JccTo(cc, UserLabel(l))]);
    StandsItem(x, pc, JccTo(cc, UserLabel(l)));
    if taken {
      LabelStands(x, b, body, here, inFn, k, l);
      TargetIs(x, StmtAt(b, body, here, inFn, k), UserLabel(l));
    }
    ReachStep(x, Spot(pc, m), Spot(StmtAt(b, body, here, inFn, k), m), syms);
  }

  // ---- calls ----

  predicate AtLeast(a: int, lo: int) {
    a >= lo
  }

  /** All addresses from lo upward. */
  ghost function From(lo: int): iset<int> {
    iset a: int | AtLeast(a, lo)
  }

  lemma CallParts(g: string, args: seq<Expr>, here: Ctx)
    requires CallCode(g, args, here).Some?
    ensures Marshal(args, R11, CALL_ARGS, here).Some?
    ensures |CallCode(g, args, here).value| == |Marshal(args, R11, CALL_ARGS, here).value| + 1
  {
    hide Marshal;
  }

  /** What the arguments leave of the caller's known registers, argument registers aside. */
  lemma ArgumentsLeave(six: seq<Expr>, st: FnState, m: Machine, m1: Machine)
    requires |six| <= 6 && KnownMatch(st, m) && (!AnyCompound(six) ==> m1.regs[R12] == m.regs[R12])
    requires forall r: Reg | r !in CALL_ARGS[..|six|] && r != R11 && r != R12 :: m1.regs[r] == m.regs[r]
    ensures AfterAll(six, st).known <= USER
    ensures forall r <- AfterAll(six, st).known :: r !in CALL_ARGS[..|six|] ==> m1.regs[r] == st.regs[r]
    ensures forall r <- AfterAll(six, st).known :: r in KEPT ==> m1.regs[r] == st.regs[r]
  {
    hide AnyCompound;
    AfterAllIs(six, st);
    assert forall r <- KEPT :: r !in CALL_ARGS;
  }

  /** The operands of a call, as the interpreter evaluates them, in the argument registers. */
  lemma CallArguments(args: seq<Expr>, here: Ctx, st: FnState, vs: seq<Word>, m: Machine, lo: int, syms: Syms)
    returns (m1: Machine)
    requires WellFormed(here) && Marshal(args, R11, CALL_ARGS, here).Some?
    requires ArgValues(FirstSix(args), here, syms, st) == Some(vs) && Slots(here, m, lo) && FrameMatch(here, st, m)
    requires 8 * (|FirstSix(args)| + MaxDepth(FirstSix(args))) <= m.regs[RSP]
    ensures Run(Marshal(args, R11, CALL_ARGS, here).value, m, syms) == Some(m1)
    ensures AllReadable(FirstSix(args), here, m, syms) && |vs| == |FirstSix(args)|
    ensures forall i | 0 <= i < |vs| :: m1.regs[CALL_ARGS[i]] == vs[i]
    ensures AfterAll(FirstSix(args), st).known <= USER
    ensures forall r <- AfterAll(FirstSix(args), st).known :: r !in CALL_ARGS[..|vs|] ==> m1.regs[r] == st.regs[r]
    ensures forall r <- AfterAll(FirstSix(args), st).known :: r in KEPT ==> m1.regs[r] == st.regs[r]
    ensures SameFrame(m, m1, m.regs[RSP])
  {
    hide Run, Marshal, WellFormed, Slots, LocalsMatch, ArgValues, AllReadable, R12Early, Value, MaxDepth, AnyCompound;
    var six := FirstSix(args);
    ArgumentsSee(six, here, st, m, lo, syms);
    TargetsDistinct();
    m1 := MarshalCorrect(args, R11, CALL_ARGS, here, m, syms);
    forall i | 0 <= i < |vs|
      ensures m1.regs[CALL_ARGS[i]] == vs[i]
    {
      assert six[i] == args[i];
    }
    ArgumentsLeave(six, st, m, m1);
  }

  /** From a call statement to the callee's first item: its frame matches the state the interpreter enters. */
  lemma CallBegins(x: Listing, p: Fns, pc: nat, g: string, args: seq<Expr>, here: Ctx, st: FnState, k: nat,
                   vs: seq<Word>, m: Machine, lo: int, syms: Syms)
    returns (m1: Machine, t: Machine)
    requires Ready(x, p) && k < |p.defs| && p.defs[k].name == g && WellFormed(here)
    requires CallCode(g, args, here).Some? && Stands(x, pc, CallCode(g, args, here).value)
    requires ArgValues(FirstSix(args), here, syms, st) == Some(vs) && Slots(here, m, lo) && FrameMatch(here, st, m)
    requires 8 * MaxDepth(FirstSix(args)) + 64 <= m.regs[RSP] && p.frame <= m.regs[RSP]
    ensures var f, at := p.defs[k], Spot(pc + |CallCode(g, args, here).value| - 1, m1);
            && Reaches(x, Spot(pc, m), at, syms) && k < |p.at| && CallsAt(x, at, p.at[k], f.locals)
            && Entered(f.locals, m1, x.adr[at.pc + 1]) == Some(t)
            && Slots(Inside(f, p.c), t, t.regs[RBP] as int - 32)
            && FrameMatch(Inside(f, p.c), Enter(AfterAll(FirstSix(args), st), vs), t)
            && t.regs[RBP] == m.regs[RSP] as int - 16 && t.regs[RSP] == m.regs[RSP] as int - FrameSize(f.locals)
    ensures SameFrame(m, m1, m.regs[RSP]) && AfterAll(FirstSix(args), st).known <= USER
    ensures forall r <- AfterAll(FirstSix(args), st).known :: r in KEPT ==> m1.regs[r] == st.regs[r]
  {
    hide Run, Stands, Unique, Apart, Reaches, Marshal, CallCode, FnCode, Passed, R12Thread, WellFormed, TotalSize,
      Entered, FnAt, Slots, FrameMatch, ArgValues, AllReadable, MaxDepth, BodyFits, CallsAt, LocalSlots, Sized,
      BodyCode, Inside, Prologue, LeavesAt, AfterAll, Enter, AnyCompound;
    var f, six := p.defs[k], FirstSix(args);
    CallParts(g, args, here);
    FnStands(x, p.at[k], f, p.c);
    m1 := CallArguments(args, here, st, vs, m, lo, syms);
    t := CallEnters(x, pc, g, args, here, m, m1, p.at[k], f.locals, syms);
    AfterAllIs(six, st);
    EnterMatches(Inside(f, p.c), AfterAll(six, st), vs, m1, t);
    FrameSlots(f, p.c, t);
  }

  /** What lies above a frame's locals includes its saved words and what its caller guards. */
  lemma FrameGuard(t: Machine, u: Machine, sp: int)
    requires SameFrom(t.mem, u.mem, sp - 48)
    ensures Kept(t, u, Guard(From(sp), sp - 16))
  {
  }

  /** A callee that reached its epilogue within its frame: the caller goes on behind the call, the registers are those
      the interpreter comes back with, and nothing from rsp upward has changed. */
  lemma CallEnds(x: Listing, s: Spot, j: nat, locals: seq<(string, nat)>, t: Machine, u: Spot, st: FnState,
                 callee: FnState, syms: Syms)
    returns (r: Machine)
    requires Unique(x.items) && Apart(x) && CallsAt(x, s, j, locals)
    requires Entered(locals, s.m, x.adr[s.pc + 1]) == Some(t) && t.regs[RBP] == s.m.regs[RSP] as int - 16
    requires Reaches(x, Spot(BodyAt(j, locals), t), u, syms) && LeavesAt(x, u.pc)
    requires t.regs[RSP] == s.m.regs[RSP] as int - FrameSize(locals) && SameFrame(t, u.m, t.regs[RBP] as int - 32)
    requires KnownMatch(callee, u.m) && st.known <= USER && forall r <- st.known ::
             r in KEPT ==> s.m.regs[r] == st.regs[r]
    ensures Reaches(x, s, Spot(s.pc + 1, r), syms) && SameFrame(s.m, r, s.m.regs[RSP]) &&
            KnownMatch(Back(st, callee), r)
  {
    hide Unique, Apart, FnAt, Entered, Reaches, LeavesAt, TotalSize, Walks, CalleeWalks, Guard;
    var w, sp: int := Go(u, Leave), s.m.regs[RSP];
    FrameGuard(t, u.m, sp);
    StretchWalks(x, Spot(BodyAt(j, locals), t), u, Guard(From(sp), sp - 16), sp - 48 - TotalSize(locals), syms);
    assert CalleeWalks(x, j, locals, w, s, From(sp), syms) by { WalksFrom(x, s, j, locals, t, w, From(sp), syms); }
    r := CallReaches(x, s, j, locals, w, From(sp), syms);
    BackMatches(st, callee, s.m, u.m, r);
    forall a | a >= sp
      ensures Rd(s.m.mem, a) == Rd(r.mem, a)
    {
      assert a in From(sp);
    }
  }

  lemma BackMatches(st: FnState, callee: FnState, m: Machine, u: Machine, r: Machine)
    requires KnownMatch(callee, u) && st.known <= USER && forall q <- st.known :: q in KEPT ==> m.regs[q] == st.regs[q]
    requires forall q | q in PRESERVED :: r.regs[q] == m.regs[q]
    requires forall q: Reg | q !in PRESERVED && q != RSP :: r.regs[q] == u.regs[q]
    ensures KnownMatch(Back(st, callee), r)
  {
    NotInFrame();
  }

  // ---- whole runs ----

  /** What a loaded program says about one of its functions. */
  lemma ReadyFn(x: Listing, p: Fns, k: nat)
    requires Ready(x, p) && k < |p.defs|
    ensures k < |p.at| && Unique(x.items) && Apart(x) && FnFits(p.defs[k], p)
    ensures var f := p.defs[k]; BodyStands(x, BodyAt(p.at[k], f.locals), f.body, Inside(f, p.c), true)
    ensures var f := p.defs[k];
            LeavesAt(x, StmtAt(BodyAt(p.at[k], f.locals), f.body, Inside(f, p.c), true, |f.body|))
    ensures var f := p.defs[k];
            StmtAt(BodyAt(p.at[k], f.locals), f.body, Inside(f, p.c), true, 0) == BodyAt(p.at[k], f.locals)
  {
    hide Unique, Apart, Stands, FnCode, FnFits, LeavesAt, BodyCode, StmtAt, FnAt, Inside;
    var f := p.defs[k];
    FnStands(x, p.at[k], f, p.c);
    BodyEnds(BodyAt(p.at[k], f.locals), f.body, Inside(f, p.c), true);
  }

  /** A statement that falls through. */
  lemma StraightFollows(x: Listing, b: nat, body: seq<Stmt>, here: Ctx, inFn: bool, i: nat, st: FnState, work: nat,
                        m: Machine, lo: int, syms: Syms)
    returns (m': Machine)
    requires WellFormed(here) && BodyStands(x, b, body, here, inFn) && i < |body| && StmtFits(body[i], work)
    requires Straight(body[i], here, syms, st).Some? && work <= m.regs[RSP]
    requires Slots(here, m, lo) && FrameMatch(here, st, m)
    ensures Reaches(x, Spot(StmtAt(b, body, here, inFn, i), m), Spot(StmtAt(b, body, here, inFn, i + 1), m'), syms)
    ensures FrameMatch(here, Straight(body[i], here, syms, st).value, m') && SameFrame(m, m', lo)
  {
    hide WellFormed, BodyStands, Stands, Reaches, Slots, FrameMatch, StmtAt, StmtCode, Run, Operand;
    var s := body[i];
    StmtStands(x, b, body, here, inFn, i);
    m' := StraightRuns(s, here, inFn, st, m, lo, syms);
    ReachRun(x, StmtAt(b, body, here, inFn, i), StmtCode(s, here, inFn).value, m, m', syms);
  }

  /** One statement: the items reach the next one in the state the interpreter gives. */
  lemma {:induction false} StmtFollows(x: Listing, p: Fns, b: nat, body: seq<Stmt>, here: Ctx, inFn: bool, i: nat,
                                       st: FnState, fuel: nat, depth: nat, m: Machine, lo: int, syms: Syms)
    returns (m': Machine)
    requires Ready(x, p) && WellFormed(here) && BodyStands(x, b, body, here, inFn) && BodyFits(body, p.work)
    requires i < |body| && Advance(p.defs, p.c, body, here, syms, i, st, fuel, depth).Some?
    requires Slots(here, m, lo) && FrameMatch(here, st, m) && Need(p, depth) <= m.regs[RSP]
    ensures var q := Advance(p.defs, p.c, body, here, syms, i, st, fuel, depth).value;
            && q.i <= |body| && FrameMatch(here, q.st, m') && SameFrame(m, m', lo)
            && Reaches(x, Spot(StmtAt(b, body, here, inFn, i), m), Spot(StmtAt(b, body, here, inFn, q.i), m'), syms)
    decreases fuel, 2
  {
    hide WellFormed, BodyStands, Stands, Reaches, Slots, LocalsMatch, StmtAt, Straight, Called, Holds, CondCode, Loaded,
      Unique, Apart, StmtFits, CallCode;
    var s := body[i];
    var q := Advance(p.defs, p.c, body, here, syms, i, st, fuel, depth).value;
    NeedWork(p, depth);
    m' := m;
    if s.Goto? {
      GotoReaches(x, b, body, here, inFn, i, q.i, m, syms);
    } else if s.JumpIf? {
      JumpIfReaches(x, b, body, here, inFn, i, q.i, Holds(CondCode(s.cond).value, m.flags).value, m, syms);
    } else if s.CallFn? {
      StmtStands(x, b, body, here, inFn, i);
      assert 8 * MaxDepth(FirstSix(s.args)) + 64 <= p.work by { CallFits(s, p.work); }
      m' := CallFollows(x, p, StmtAt(b, body, here, inFn, i), s.callee, s.args, here, st, fuel, depth, m, lo, syms);
      assert SameFrom(m.mem, m'.mem, lo) by { AboveStack(here, m, m', lo); }
    } else {
      m' := StraightFollows(x, b, body, here, inFn, i, st, p.work, m, lo, syms);
    }
  }

  lemma CallFits(s: Stmt, work: nat)
    requires s.CallFn? && StmtFits(s, work)
    ensures 8 * MaxDepth(FirstSix(s.args)) + 64 <= work
  {
  }

  /** A returned value is in rax at the epilogue. */
  lemma ReturnFollows(x: Listing, pc: nat, s: Stmt, here: Ctx, st: FnState, work: nat, m: Machine, lo: int, syms: Syms)
    returns (u: Spot)
    requires WellFormed(here) && s.RetVal? && StmtCode(s, here, true).Some? &&
             Stands(x, pc, StmtCode(s, here, true).value)
    requires Operand(s.result, here, syms, st).Some? && StmtFits(s, work) && work <= m.regs[RSP]
    requires Slots(here, m, lo) && FrameMatch(here, st, m)
    ensures Reaches(x, Spot(pc, m), u, syms) && LeavesAt(x, u.pc) && SameFrame(m, u.m, lo)
    ensures var st1 := After(s.result, st);
            KnownMatch(st1.(regs := st.regs[RAX := Operand(s.result, here, syms, st).value],
              known := st1.known + {RAX}), u.m)
  {
    hide WellFormed, Stands, Reaches, Slots, LocalsMatch, StmtCode, ExprCode, Run, Operand, LeavesAt, Value, Readable,
      R12Intact, Depth, Leftovers, SeenFlags;
    var e := s.result;
    RetStands(x, pc, s, here);
    OperandSees(e, here, st, m, lo, syms);
    EvalCorrect(e, RAX, here, m, syms);
    u := Spot(pc + |ExprCode(e, RAX, here).value|, Run(ExprCode(e, RAX, here).value, m, syms).value);
    ReachRun(x, pc, ExprCode(e, RAX, here).value, m, u.m, syms);
    assert SameFrom(m.mem, u.m.mem, m.regs[RSP]);
    assert SameFrom(m.mem, u.m.mem, lo) by { AboveStack(here, m, u.m, lo); }
  }

  /** The body of a function from statement i: the items reach an epilogue, with the frame intact, in the state the
      interpreter gives. */
  lemma {:induction false} BodyFollows(x: Listing, p: Fns, k: nat, i: nat, st: FnState, fuel: nat, depth: nat,
                                       m: Machine, syms: Syms)
    returns (u: Spot)
    requires Ready(x, p) && k < |p.defs| && k < |p.at| && i <= |p.defs[k].body|
    requires Execute(p.defs, p.c, p.defs[k], syms, i, st, fuel, depth).Some? && Need(p, depth) <= m.regs[RSP]
    requires Slots(Inside(p.defs[k], p.c), m, m.regs[RBP] as int - 32) && FrameMatch(Inside(p.defs[k], p.c), st, m)
    ensures var f := p.defs[k];
            Reaches(x, Spot(StmtAt(BodyAt(p.at[k], f.locals), f.body, Inside(f, p.c), true, i), m), u, syms)
    ensures LeavesAt(x, u.pc) && SameFrame(m, u.m, m.regs[RBP] as int - 32)
    ensures KnownMatch(Execute(p.defs, p.c, p.defs[k], syms, i, st, fuel, depth).value, u.m)
    decreases fuel, 0
  {
    hide Ready, WellFormed, BodyStands, Stands, Reaches, Slots, LocalsMatch, StmtAt, Advance, Inside, LeavesAt, Operand,
      Unique, Apart,
      StmtCode;
    var f, lo := p.defs[k], m.regs[RBP] as int - 32;
    var here, b := Inside(f, p.c), BodyAt(p.at[k], f.locals);
    ReadyFn(x, p, k);
    InsideWellFormed(f, p.c);
    NeedWork(p, depth);
    if i == |f.body| {
      u := Spot(StmtAt(b, f.body, here, true, i), m);
      ReachSelf(x, u, syms);
    } else if f.body[i].Ret? {
      u := Spot(StmtAt(b, f.body, here, true, i), m);
      StmtStands(x, b, f.body, here, true, i);
      RetStands(x, u.pc, f.body[i], here);
      ReachSelf(x, u, syms);
    } else if f.body[i].RetVal? {
      StmtStands(x, b, f.body, here, true, i);
      u := ReturnFollows(x, StmtAt(b, f.body, here, true, i), f.body[i], here, st, p.work, m, lo, syms);
    } else {
      var m1 := StmtFollows(x, p, b, f.body, here, true, i, st, fuel - 1, depth, m, lo, syms);
      var q := Advance(p.defs, p.c, f.body, here, syms, i, st, fuel - 1, depth).value;
      assert Slots(here, m1, lo) by { SlotsSame(here, m, m1, lo); }
      u := BodyFollows(x, p, k, q.i, q.st, fuel - 1, depth, m1, syms);
      ReachTrans(x, Spot(StmtAt(b, f.body, here, true, i), m), Spot(StmtAt(b, f.body, here, true, q.i), m1), u, syms);
    }
  }

  lemma SlotsSame(c: Ctx, m: Machine, m': Machine, lo: int)
    requires Slots(c, m, lo) && m'.regs[RSP] == m.regs[RSP] && m'.regs[RBP] == m.regs[RBP]
    ensures Slots(c, m', lo)
  {
  }

  /** The parts of a call the interpreter can make. */
  lemma CalledParts(p: Fns, here: Ctx, g: string, args: seq<Expr>, st: FnState, fuel: nat, depth: nat, syms: Syms)
    requires Called(p.defs, p.c, here, syms, g, args, st, fuel, depth).Some?
    ensures depth > 0 && |FirstSix(args)| <= 6 && FindFn(p.defs, g).Some? &&
            ArgValues(FirstSix(args), here, syms, st).Some?
    ensures var k, six := FindFn(p.defs, g).value, FirstSix(args);
            var entry := Enter(AfterAll(six, st), ArgValues(six, here, syms, st).value);
            var callee := Execute(p.defs, p.c, p.defs[k], syms, 0, entry, fuel, depth - 1);
            callee.Some? &&
            Called(p.defs, p.c, here, syms, g, args, st, fuel, depth) == Some(Back(AfterAll(six, st), callee.value))
  {
    hide Execute, Enter, Back, AfterAll, ArgValues;
  }

  /** A call statement, whatever its callee calls: execution comes back behind it in the state the interpreter gives. */
  lemma {:induction false} CallFollows(x: Listing, p: Fns, pc: nat, g: string, args: seq<Expr>, here: Ctx, st: FnState,
                                       fuel: nat, depth: nat, m: Machine, lo: int, syms: Syms)
    returns (r: Machine)
    requires Ready(x, p) && WellFormed(here) && Called(p.defs, p.c, here, syms, g, args, st, fuel, depth).Some?
    requires CallCode(g, args, here).Some? && Stands(x, pc, CallCode(g, args, here).value)
    requires 8 * MaxDepth(FirstSix(args)) + 64 <= p.work && Need(p, depth) <= m.regs[RSP]
    requires Slots(here, m, lo) && FrameMatch(here, st, m)
    ensures Reaches(x, Spot(pc, m), Spot(pc + |CallCode(g, args, here).value|, r), syms)
    ensures FrameMatch(here, Called(p.defs, p.c, here, syms, g, args, st, fuel, depth).value, r)
    ensures SameFrame(m, r, m.regs[RSP])
    decreases fuel, 1
  {
    hide Ready, WellFormed, CallCode, Stands, Reaches, Slots, KnownMatch, LocalsMatch, MaxDepth, CallsAt, Entered,
      Execute, Called, Back, Enter, TotalSize, FnCode, ArgValues, AfterAll, LeavesAt, StmtAt, FirstSix;
    var six := FirstSix(args);
    CalledParts(p, here, g, args, st, fuel, depth, syms);
    CallParts(g, args, here);
    AfterAllIs(six, st);
    var k, vs := FindFn(p.defs, g).value, ArgValues(six, here, syms, st).value;
    var f, st1 := p.defs[k], AfterAll(six, st);
    NeedWork(p, depth);
    NeedWork(p, depth - 1);
    ReadyFn(x, p, k);
    var m1, t := CallBegins(x, p, pc, g, args, here, st, k, vs, m, lo, syms);
    var at := Spot(pc + |CallCode(g, args, here).value| - 1, m1);
    var u := BodyFollows(x, p, k, 0, Enter(st1, vs), fuel, depth - 1, t, syms);
    var callee := Execute(p.defs, p.c, f, syms, 0, Enter(st1, vs), fuel, depth - 1).value;
    r := CallEnds(x, at, p.at[k], f.locals, t, u, st1, callee, syms);
    ReachTrans(x, Spot(pc, m), at, Spot(at.pc + 1, r), syms);
    LocalsStay(here, st.locals, m, r, lo);
    BackLocals(st1, callee);
  }

  lemma BackLocals(st: FnState, callee: FnState)
    ensures Back(st, callee).locals == st.locals
  {
  }
}
