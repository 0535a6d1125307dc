/** Function calls on the emitted items, and so on the linked bytes: label, prologue, body, epilogue, `ret`. */
module Calls {
  import opened Wrappers
  import opened Words
  import opened Memory
  import opened Regs
  import opened Isa
  import opened Assembly
  import opened Ast
  import opened Codegen
  import opened Semantics
  import opened ExprProofs
  import opened MarshalProofs
  import opened Simulation
  import opened Frames
  import opened Flow

  // ---- where functions stand ----

  /** A function's label and prologue stand at `j`. */
  predicate FnAt(x: Listing, j: nat, locals: seq<(string, nat)>) {
    j < |x.items| && x.items[j].Lab? && Prologue(locals).Some? && Stands(x, j + 1, Prologue(locals).value)
  }

  /** The first item of the body. */
  function BodyAt(j: nat, locals: seq<(string, nat)>): nat {
    match Prologue(locals) case None => j + 1 case Some(p) => j + 1 + |p|
  }

  /** A `ret` statement, or the end of a function. */
  predicate LeavesAt(x: Listing, pc: nat) {
    Stands(x, pc, RESTORE + [Ins(Instr.Ret)])
  }

  /** Different calls return to different addresses. */
  predicate Apart(x: Listing) {
    forall i, j | 0 <= i < |x.items| && 0 <= j < |x.items| && x.items[i].CallTo? && x.items[j].CallTo? &&
      x.adr[i + 1] == x.adr[j + 1] :: i == j
  }

  // ---- executions ----

  /** What an activation does between prologue and epilogue: stretches of its own items, jumps and loops included,
      and calls; then it leaves. */
  datatype Walk =
    | Leave
    | Go(to: Spot, rest: Walk)
    | Through(entry: nat, locals: seq<(string, nat)>, inner: Walk, rest: Walk)

  /** The machine behind the prologue of a call from `m` that returns to `ret`. */
  function Entered(locals: seq<(string, nat)>, m: Machine, ret: Word): Option<Machine> {
    match Prologue(locals) case None => None case Some(p) => Run(p, PushValue(m, ret), map[])
  }

  /** The machine behind epilogue and `ret`. */
  function Returned(m: Machine): Option<Machine> {
    match Run(RESTORE, m, map[]) case None => None case Some(t) => Some(t.Set(RSP, Wrap(t.regs[RSP] as int + 8)))
  }

  /** The machine at the epilogue an activation leaves through. */
  function Leaving(x: Listing, w: Walk, s: Spot): Option<Machine>
    decreases w, 0
  {
    match w
    case Leave => Some(s.m)
    case Go(t, rest) => Leaving(x, rest, t)
    case Through(j, locals, inner, rest) =>
      match Result(x, j, locals, inner, s) case None => None case Some(r) => Leaving(x, rest, Spot(s.pc + 1, r))
  }

  /** The machine behind a call. */
  function Result(x: Listing, j: nat, locals: seq<(string, nat)>, inner: Walk, s: Spot): Option<Machine>
    decreases inner, 1
  {
    if s.pc >= |x.items| then None
    else
      match Entered(locals, s.m, x.adr[s.pc + 1])
      case None => None
      case Some(m1) =>
        match Leaving(x, inner, Spot(BodyAt(j, locals), m1)) case None => None case Some(m2) => Returned(m2)
  }

  /** A call instruction stands at the spot, its target is the function at `j`, and the frame fits below rsp. */
  predicate CallsAt(x: Listing, s: Spot, j: nat, locals: seq<(string, nat)>) {
    && s.pc < |x.items| && x.items[s.pc].CallTo? && FnAt(x, j, locals) && x.items[j] == Lab(x.items[s.pc].target)
    && FrameSize(locals) <= s.m.regs[RSP]
  }

  /** The walk is an execution of the items from `s`: its stretches are reached, keep rbp, keep rsp at or below the
      locals and write nothing guarded; its calls name functions, have room, and are such walks themselves. */
  ghost predicate Walks(x: Listing, w: Walk, s: Spot, keep: iset<int>, low: int, syms: Syms)
    decreases w, 0
  {
    match w
    case Leave => LeavesAt(x, s.pc)
    case Go(t, rest) =>
      && Reaches(x, s, t, syms) && t.m.regs[RBP] == s.m.regs[RBP] && t.m.regs[RSP] <= low && Kept(s.m, t.m, keep)
      && Walks(x, rest, t, keep, low, syms)
    case Through(j, locals, inner, rest) =>
      && CallsAt(x, s, j, locals) && CalleeWalks(x, j, locals, inner, s, keep, syms)
      && forall r | Result(x, j, locals, inner, s) == Some(r) :: Walks(x, rest, Spot(s.pc + 1, r), keep, low, syms)
  }

  /** The callee's body walks in its own frame, where the caller's guarded bytes and its own saved words are guarded. */
  ghost predicate CalleeWalks(x: Listing, j: nat, locals: seq<(string, nat)>, inner: Walk, s: Spot, keep: iset<int>,
                              syms: Syms)
    decreases inner, 1
  {
    s.pc < |x.items| &&
    forall m1 | Entered(locals, s.m, x.adr[s.pc + 1]) == Some(m1) ::
      Walks(x, inner, Spot(BodyAt(j, locals), m1), Guard(keep, s.m.regs[RSP] as int - 16),
        s.m.regs[RSP] as int - 48 - TotalSize(locals), syms)
  }

  // ---- into a function and out of it ----

  /** Only `lea` reads the symbol table. */
  lemma {:induction false} AnySyms(items: seq<Item>, m: Machine, a: Syms, b: Syms)
    requires forall it <- items :: !it.LeaTo?
    ensures Run(items, m, a) == Run(items, m, b)
    decreases |items|
  {
    hide Exec;
    if items != [] && Step(items[0], m, a).Some? {
      assert Step(items[0], m, a) == Step(items[0], m, b);
      AnySyms(items[1..], Step(items[0], m, a).value, a, b);
    }
  }

  lemma PrologueItems(locals: seq<(string, nat)>)
    requires Prologue(locals).Some?
    ensures forall it <- Prologue(locals).value :: !it.LeaTo?
  {
  }

  /** From the call instruction to the first item of the callee's body. */
  lemma EnterReaches(x: Listing, s: Spot, j: nat, locals: seq<(string, nat)>, syms: Syms) returns (t: Machine)
    requires Unique(x.items) && CallsAt(x, s, j, locals)
    ensures Entered(locals, s.m, x.adr[s.pc + 1]) == Some(t) && Reaches(x, s, Spot(BodyAt(j, locals), t), syms)
    ensures t.regs[RBP] == s.m.regs[RSP] as int - 16 && t.regs[RSP] == s.m.regs[RSP] as int - 48 - TotalSize(locals)
    ensures SavedAt(t, s.m.regs[RSP] as int - 16, s.m) && SameFrom(s.m.mem, t.mem, s.m.regs[RSP])
    ensures Load64(t.mem, s.m.regs[RSP] as int - 8) == x.adr[s.pc + 1]
    ensures forall q: Reg | q != RSP && q != RBP :: t.regs[q] == s.m.regs[q]
  {
    hide Run, Prologue, Unique, Stands, Reaches, Load64, PushValue, SavedAt, TotalSize;
    var ret := x.adr[s.pc + 1];
    var m0 := PushValue(s.m, ret);
    PushedReturn(s.m, ret);
    t := PrologueRuns(locals, m0);
    assert SavedAt(t, s.m.regs[RSP] as int - 16, s.m) by { SavedFor(t, m0, s.m, s.m.regs[RSP] as int - 16); }
    KeepWord(m0, t, m0.regs[RSP] as int, s.m.regs[RSP] as int - 8);
    PrologueItems(locals);
    AnySyms(Prologue(locals).value, m0, map[], syms);
    TargetIs(x, j, x.items[s.pc].target);
    ReachStep(x, s, Spot(j, m0), syms);
    ReachStep(x, Spot(j, m0), Spot(j + 1, m0), syms);
    ReachRun(x, j + 1, Prologue(locals).value, m0, t, syms);
    ReachTrans(x, s, Spot(j, m0), Spot(j + 1, m0), syms);
    ReachTrans(x, s, Spot(j + 1, m0), Spot(BodyAt(j, locals), t), syms);
  }

  /** Pushing the return address changes no saved register. */
  lemma SavedFor(t: Machine, m0: Machine, m: Machine, rbp: int)
    requires SavedAt(t, rbp, m0) && forall q: Reg | q != RSP :: m0.regs[q] == m.regs[q]
    ensures SavedAt(t, rbp, m)
  {
    hide Load64;
  }

  /** The address behind a call leads back to the item behind it. */
  lemma ReturnsTo(x: Listing, k: nat, n: nat)
    requires Apart(x) && k < n <= |x.items| && x.items[k].CallTo?
    ensures ReturnPoint(x, x.adr[k + 1], n) == Some(k + 1)
  {
    var r := ReturnPoint(x, x.adr[k + 1], n);
    if r.Some? {
      assert x.items[r.value - 1].CallTo? && x.adr[(r.value - 1) + 1] == x.adr[k + 1];
    }
  }

  /** From an epilogue with rbp, saved words and return address in place to the item behind the call. */
  lemma LeaveReaches(x: Listing, p: nat, k: nat, m: Machine, was: Machine, syms: Syms) returns (r: Machine)
    requires Apart(x) && LeavesAt(x, p) && k < |x.items| && x.items[k].CallTo?
    requires 48 <= was.regs[RSP] && m.regs[RBP] == was.regs[RSP] as int - 16 &&
             SavedAt(m, was.regs[RSP] as int - 16, was)
    requires Load64(m.mem, was.regs[RSP] as int - 8) == x.adr[k + 1]
    ensures Returned(m) == Some(r) && Reaches(x, Spot(p, m), Spot(k + 1, r), syms)
    ensures r.mem == m.mem && r.regs[RSP] == was.regs[RSP] && forall q | q in PRESERVED :: r.regs[q] == was.regs[q]
    ensures forall q: Reg | q !in PRESERVED && q != RSP :: r.regs[q] == m.regs[q]
  {
    hide Run, Stands, Reaches, Load64, SavedAt, Apart;
    var t := RestoreRuns(m, was.regs[RSP] - 16, was);
    r := t.Set(RSP, was.regs[RSP]);
    StandsPart(x, p, RESTORE, [Ins(Instr.Ret)]);
    StandsItem(x, p + |RESTORE|, Ins(Instr.Ret));
    AnySyms(RESTORE, m, map[], syms);
    ReachRun(x, p, RESTORE, m, t, syms);
    ReturnsTo(x, k, |x.items|);
    ReachStep(x, Spot(p + |RESTORE|, t), Spot(k + 1, r), syms);
    ReachTrans(x, Spot(p, m), Spot(p + |RESTORE|, t), Spot(k + 1, r), syms);
  }

  // ---- calls return ----

  /** Memory and the registers a call does not preserve are as the callee left them. */
  predicate Left(x: Listing, j: nat, locals: seq<(string, nat)>, inner: Walk, s: Spot, r: Machine) {
    && s.pc < |x.items| && Entered(locals, s.m, x.adr[s.pc + 1]).Some?
    && var m2 := Leaving(x, inner, Spot(BodyAt(j, locals), Entered(locals, s.m, x.adr[s.pc + 1]).value));
       m2.Some? && r.mem == m2.value.mem && forall q: Reg | q !in PRESERVED && q != RSP :: r.regs[q] == m2.value.regs[q]
  }

  /** A call, whatever calls its body makes, returns behind its `call` with rbx, r12 to r14, rbp and rsp as before
      it and every guarded byte unchanged; the other registers are those the body left. */
  lemma {:induction false} CallReaches(x: Listing, s: Spot, j: nat, locals: seq<(string, nat)>, inner: Walk,
                                       keep: iset<int>, syms: Syms)
    returns (r: Machine)
    requires Unique(x.items) && Apart(x) && CallsAt(x, s, j, locals) && CalleeWalks(x, j, locals, inner, s, keep, syms)
    requires Above(keep, s.m.regs[RSP])
    ensures Result(x, j, locals, inner, s) == Some(r) && Reaches(x, s, Spot(s.pc + 1, r), syms)
    ensures r.regs[RSP] == s.m.regs[RSP] && forall q | q in PRESERVED :: r.regs[q] == s.m.regs[q]
    ensures Kept(s.m, r, keep) && Left(x, j, locals, inner, s, r)
    decreases inner, 1
  {
    hide Run, Unique, Apart, Reaches, Load64, SavedAt, TotalSize, Entered, Returned, LeavesAt, Walks, Leaving;
    var sp: int := s.m.regs[RSP];
    var m1 := EnterReaches(x, s, j, locals, syms);
    var guarded := Guard(keep, sp - 16);
    assert Above(guarded, sp - 48 - TotalSize(locals));
    var t := WalkLeaves(x, inner, Spot(BodyAt(j, locals), m1), guarded, sp - 48 - TotalSize(locals), syms);
    assert SavedAt(t.m, sp - 16, s.m) by { SavedKept(m1, t.m, sp - 16, s.m, guarded); }
    AddressKept(m1, t.m, sp, guarded);
    r := LeaveReaches(x, t.pc, s.pc, t.m, s.m, syms);
    ReachTrans(x, s, Spot(BodyAt(j, locals), m1), t, syms);
    ReachTrans(x, s, t, Spot(s.pc + 1, r), syms);
  }

  lemma AddressKept(m1: Machine, m2: Machine, sp: int, keep: iset<int>)
    requires Kept(m1, m2, keep) && forall a | InSaved(a, sp - 16) :: a in keep
    ensures Load64(m2.mem, sp - 8) == Load64(m1.mem, sp - 8)
  {
    forall a | sp - 8 <= a < sp
      ensures Rd(m1.mem, a) == Rd(m2.mem, a)
    {
      assert InSaved(a, sp - 16);
    }
    Load64Same(m1.mem, m2.mem, sp - 8);
  }

  /** A walk reaches the epilogue it leaves through, with its frame intact. */
  lemma {:induction false} WalkLeaves(x: Listing, w: Walk, s: Spot, keep: iset<int>, low: int,
                                      syms: Syms) returns (t: Spot)
    requires Unique(x.items) && Apart(x) && Walks(x, w, s, keep, low, syms) && s.m.regs[RSP] <= low && Above(keep, low)
    ensures Leaving(x, w, s) == Some(t.m) && Reaches(x, s, t, syms) && LeavesAt(x, t.pc)
    ensures t.m.regs[RBP] == s.m.regs[RBP] && Kept(s.m, t.m, keep)
    decreases w, 0
  {
    hide Run, Unique, Apart, Reaches, LeavesAt, CalleeWalks, CallsAt, Result;
    if w.Leave? {
      t := s;
      ReachSelf(x, s, syms);
    } else if w.Go? {
      t := WalkLeaves(x, w.rest, w.to, keep, low, syms);
      ReachTrans(x, s, w.to, t, syms);
    } else {
      assert Above(keep, s.m.regs[RSP]);
      var r := CallReaches(x, s, w.entry, w.locals, w.inner, keep, syms);
      t := WalkLeaves(x, w.rest, Spot(s.pc + 1, r), keep, low, syms);
      ReachTrans(x, s, Spot(s.pc + 1, r), t, syms);
    }
  }

  // ---- source statements ----

  /** A compiled function stands where its parts do, and its end is an epilogue. */
  lemma FnStands(x: Listing, j: nat, f: FnDef, c: Ctx)
    requires FnCode(f, c).Some? && Stands(x, j, FnCode(f, c).value)
    ensures FnAt(x, j, f.locals) && x.items[j] == Lab(UserLabel(f.name))
    ensures BodyCode(f.body, Inside(f, c), true).Some?
    ensures Stands(x, BodyAt(j, f.locals), BodyCode(f.body, Inside(f, c), true).value)
    ensures LeavesAt(x, BodyAt(j, f.locals) + |BodyCode(f.body, Inside(f, c), true).value|)
  {
    hide Stands, Prologue, BodyCode;
    var head, entry, body := [Lab(UserLabel(f.name))], Prologue(f.locals).value,
      BodyCode(f.body, Inside(f, c), true).value;
    StandsPart(x, j, head + entry + body, RESTORE + [Ins(Instr.Ret)]);
    StandsPart(x, j, head + entry, body);
    StandsPart(x, j, head, entry);
    StandsItem(x, j, head[0]);
  }

  /** A `ret` statement inside a function is a place to leave it, behind the evaluation of its value. */
  lemma RetStands(x: Listing, pc: nat, st: Stmt, c: Ctx)
    requires (st.Ret? || st.RetVal?) && StmtCode(st, c, true).Some? && Stands(x, pc, StmtCode(st, c, true).value)
    ensures st.Ret? ==> LeavesAt(x, pc)
    ensures st.RetVal? ==> ExprCode(st.result, RAX, c).Some? && Stands(x, pc, ExprCode(st.result, RAX, c).value)
    ensures st.RetVal? ==> LeavesAt(x, pc + |ExprCode(st.result, RAX, c).value|)
  {
    hide Stands, ExprCode;
    if st.RetVal? {
      StandsPart(x, pc, ExprCode(st.result, RAX, c).value, RESTORE + [Ins(Instr.Ret)]);
    }
  }

  /** The arguments of a call, in their registers. */
  ghost predicate Passed(args: seq<Expr>, c: Ctx, m: Machine, t: Machine, syms: Syms) {
    forall i | 0 <= i < |FirstSix(args)| :: t.regs[CALL_ARGS[i]] == SeenArg(FirstSix(args), i, c, m, syms)
  }

  /** A call statement up to the callee's first item: the operands as the code sees them are in the argument
      registers, the frame is set up, and nothing from rsp upward has changed. */
  lemma CallEnters(x: Listing, pc: nat, callee: string, args: seq<Expr>, c: Ctx, m: Machine, m1: Machine, j: nat,
                   locals: seq<(string, nat)>,
                   syms: Syms) returns (t: Machine)
    requires Unique(x.items) && WellFormed(c) && CallCode(callee, args, c).Some? &&
             Stands(x, pc, CallCode(callee, args, c).value)
    requires AllReadable(FirstSix(args), c, m, syms) && 8 * (|FirstSix(args)| + MaxDepth(FirstSix(args))) <= m.regs[RSP]
    requires FnAt(x, j, locals) && x.items[j] == Lab(UserLabel(callee)) && FrameSize(locals) <= m.regs[RSP]
    requires Marshal(args, R11, CALL_ARGS, c).Some? && Run(Marshal(args, R11, CALL_ARGS, c).value, m, syms) == Some(m1)
    ensures var at := pc + |Marshal(args, R11, CALL_ARGS, c).value|;
            && CallsAt(x, Spot(at, m1), j, locals) && Reaches(x, Spot(pc, m), Spot(at, m1), syms)
            && at + 1 == pc + |CallCode(callee, args, c).value| && Entered(locals, m1, x.adr[at + 1]) == Some(t)
    ensures Passed(args, c, m, m1, syms) && m1.regs[RSP] == m.regs[RSP] && SameFrom(m.mem, m1.mem, m.regs[RSP])
    ensures forall r: Reg | r !in CALL_ARGS && r != R11 && r != R12 :: m1.regs[r] == m.regs[r]
    ensures m1.regs[R12] == R12Thread(FirstSix(args), m.regs[R12], c, m, syms)
    ensures Passed(args, c, m, t, syms) && t.regs[RBP] == m.regs[RSP] as int - 16 &&
            t.regs[RSP] == m.regs[RSP] as int - 48 - TotalSize(locals)
    ensures forall q: Reg | q != RSP && q != RBP :: t.regs[q] == m1.regs[q]
  {
    hide Run, Stands, Unique, Reaches, Marshal, SeenArg, R12Thread, WellFormed, Load64, SavedAt, TotalSize, Entered,
      FnAt;
    TargetsDistinct();
    var same := MarshalSees(args, R11, CALL_ARGS, c, m, syms);
    var marshal := Marshal(args, R11, CALL_ARGS, c).value;
    var at := pc + |marshal|;
    StandsPart(x, pc, marshal, [CallTo(UserLabel(callee))]);
    StandsItem(x, at, CallTo(UserLabel(callee)));
    ReachRun(x, pc, marshal, m, m1, syms);
    t := EnterReaches(x, Spot(at, m1), j, locals, syms);
  }

  /** A whole call statement: whatever its callee does within its frame, execution comes back behind it with rbx, r13,
      r14, rbp and rsp as before the statement, r12 as the operands left it, and every guarded byte unchanged. */
  lemma CallStatement(x: Listing, pc: nat, callee: string, args: seq<Expr>, c: Ctx, m: Machine, m1: Machine, j: nat,
                      locals: seq<(string, nat)>,
                      inner: Walk, keep: iset<int>, syms: Syms) returns (r: Machine)
    requires Unique(x.items) && Apart(x) && WellFormed(c) && CallCode(callee, args, c).Some? &&
             Stands(x, pc, CallCode(callee, args, c).value)
    requires AllReadable(FirstSix(args), c, m, syms) && 8 * (|FirstSix(args)| + MaxDepth(FirstSix(args))) <= m.regs[RSP]
    requires FnAt(x, j, locals) && x.items[j] == Lab(UserLabel(callee)) && FrameSize(locals) <= m.regs[RSP] &&
             Above(keep, m.regs[RSP])
    requires Marshal(args, R11, CALL_ARGS, c).Some? && Run(Marshal(args, R11, CALL_ARGS, c).value, m, syms) == Some(m1)
    requires CalleeWalks(x, j, locals, inner, Spot(pc + |Marshal(args, R11, CALL_ARGS, c).value|, m1), keep, syms)
    ensures Reaches(x, Spot(pc, m), Spot(pc + |CallCode(callee, args, c).value|, r), syms)
    ensures Result(x, j, locals, inner, Spot(pc + |Marshal(args, R11, CALL_ARGS, c).value|, m1)) == Some(r)
    ensures r.regs[RSP] == m.regs[RSP] && (forall q | q in PRESERVED && q != R12 :: r.regs[q] == m.regs[q])
    ensures r.regs[R12] == R12Thread(FirstSix(args), m.regs[R12], c, m, syms) && Kept(m, r, keep)
  {
    hide Run, Stands, Unique, Apart, Reaches, Marshal, CallCode, Passed, R12Thread, WellFormed, TotalSize, Entered,
      FnAt, CalleeWalks, CallsAt, Result;
    var t := CallEnters(x, pc, callee, args, c, m, m1, j, locals, syms);
    var at := Spot(pc + |Marshal(args, R11, CALL_ARGS, c).value|, m1);
    r := CallReaches(x, at, j, locals, inner, keep, syms);
    ReachTrans(x, Spot(pc, m), at, Spot(at.pc + 1, r), syms);
  }

  /** Arguments are in argument registers. */
  lemma {:induction false} InsideWellFormed(f: FnDef, c: Ctx)
    ensures WellFormed(Inside(f, c))
  {
    ArgsInRegs(f.args);
  }

  lemma {:induction false} ArgsInRegs(args: seq<string>)
    ensures forall a <- ArgRegs(args) :: ArgRegs(args)[a] in CALL_ARGS
  {
    if args != [] { ArgsInRegs(args[..|args| - 1]); }
  }

  /** A body that returns an expression. */
  lemma OnlyReturn(x: Listing, j: nat, f: FnDef, e: Expr, c: Ctx)
    requires FnCode(f, c).Some? && f.body == [RetVal(e)] && Stands(x, j, FnCode(f, c).value)
    ensures FnAt(x, j, f.locals) && x.items[j] == Lab(UserLabel(f.name)) && ExprCode(e, RAX, Inside(f, c)).Some?
    ensures Stands(x, BodyAt(j, f.locals), ExprCode(e, RAX, Inside(f, c)).value)
    ensures LeavesAt(x, BodyAt(j, f.locals) + |ExprCode(e, RAX, Inside(f, c)).value|)
  {
    hide Stands, ExprCode, Prologue, FnCode;
    FnStands(x, j, f, c);
    assert f.body[..0] == [] && f.body[0] == RetVal(e);
    assert BodyCode([], Inside(f, c), true) == Some([]);
    assert [] + StmtCode(RetVal(e), Inside(f, c), true).value == StmtCode(RetVal(e), Inside(f, c), true).value;
    assert BodyCode(f.body, Inside(f, c), true) == StmtCode(RetVal(e), Inside(f, c), true);
    RetStands(x, BodyAt(j, f.locals), RetVal(e), Inside(f, c));
  }

  /** One stretch up to the epilogue. */
  lemma StretchWalks(x: Listing, s: Spot, u: Spot, keep: iset<int>, low: int, syms: Syms)
    requires Reaches(x, s, u, syms) && LeavesAt(x, u.pc) && Kept(s.m, u.m, keep)
    requires u.m.regs[RBP] == s.m.regs[RBP] && u.m.regs[RSP] <= low
    ensures Walks(x, Go(u, Leave), s, keep, low, syms) && Leaving(x, Go(u, Leave), s) == Some(u.m)
  {
    hide Reaches, LeavesAt;
    assert Walks(x, Leave, u, keep, low, syms) && Leaving(x, Leave, u) == Some(u.m);
  }

  lemma WalksFrom(x: Listing, s: Spot, j: nat, locals: seq<(string, nat)>, t: Machine, w: Walk, keep: iset<int>,
                  syms: Syms)
    requires s.pc < |x.items| && Entered(locals, s.m, x.adr[s.pc + 1]) == Some(t)
    requires Walks(x, w, Spot(BodyAt(j, locals), t), Guard(keep, s.m.regs[RSP] as int - 16),
                   s.m.regs[RSP] as int - 48 - TotalSize(locals), syms)
    ensures CalleeWalks(x, j, locals, w, s, keep, syms)
  {
    hide Walks, Entered, Guard, TotalSize;
  }

  lemma ExpressionWalks(x: Listing, b: nat, e: Expr, c: Ctx, t: Machine, keep: iset<int>, syms: Syms) returns (w: Walk)
    requires WellFormed(c) && ExprCode(e, RAX, c).Some? && Stands(x, b, ExprCode(e, RAX, c).value)
    requires LeavesAt(x, b + |ExprCode(e, RAX, c).value|) && Readable(e, c, t, t.regs[RSP], syms)
    requires 8 * Depth(e) <= t.regs[RSP] && Above(keep, t.regs[RSP])
    ensures Walks(x, w, Spot(b, t), keep, t.regs[RSP], syms)
    ensures Leaving(x, w, Spot(b, t)).Some? &&
            Leaving(x, w, Spot(b, t)).value.regs[RAX] == Seen(e, t.regs[R12], c, t, syms)
  {
    hide Run, Stands, Reaches, ExprCode, Seen, Readable, Depth, WellFormed, LeavesAt;
    EvalSees(e, RAX, c, t, syms);
    var u := Run(ExprCode(e, RAX, c).value, t, syms).value;
    var end := Spot(b + |ExprCode(e, RAX, c).value|, u);
    ReachRun(x, b, ExprCode(e, RAX, c).value, t, u, syms);
    w := Go(end, Leave);
    StretchWalks(x, Spot(b, t), end, keep, t.regs[RSP], syms);
  }

  lemma CallsHere(x: Listing, s: Spot, j: nat, locals: seq<(string, nat)>)
    requires CallsAt(x, s, j, locals)
    ensures s.pc < |x.items|
  {
  }

  lemma LeftRax(x: Listing, j: nat, locals: seq<(string, nat)>, inner: Walk, s: Spot, t: Machine, r: Machine)
    requires Left(x, j, locals, inner, s, r) && s.pc < |x.items| && Entered(locals, s.m, x.adr[s.pc + 1]) == Some(t)
    ensures var m2 := Leaving(x, inner, Spot(BodyAt(j, locals), t)); m2.Some? && r.regs[RAX] == m2.value.regs[RAX]
  {
    hide Entered, Leaving;
  }

  /** A frame's guarded bytes lie above its locals. */
  lemma GuardAbove(keep: iset<int>, sp: int, low: int)
    requires Above(keep, sp) && low <= sp - 48
    ensures Above(Guard(keep, sp - 16), low)
  {
  }

  /** A call of a function that returns an expression: rax is the value of that expression over the argument values,
      the rest as for every call. */
  lemma CallOfExpression(x: Listing, pc: nat, f: FnDef, e: Expr, args: seq<Expr>, c: Ctx, m: Machine, m1: Machine,
                         t: Machine, j: nat,
                         keep: iset<int>, syms: Syms) returns (r: Machine)
    requires Unique(x.items) && Apart(x) && WellFormed(c) && CallCode(f.name, args, c).Some? &&
             Stands(x, pc, CallCode(f.name, args, c).value)
    requires AllReadable(FirstSix(args), c, m, syms) && 8 * (|FirstSix(args)| + MaxDepth(FirstSix(args))) <= m.regs[RSP]
    requires FnCode(f, c).Some? && f.body == [RetVal(e)] && Stands(x, j, FnCode(f, c).value)
    requires FrameSize(f.locals) + 8 * Depth(e) <= m.regs[RSP] && Above(keep, m.regs[RSP])
    requires Marshal(args, R11, CALL_ARGS, c).Some? && Run(Marshal(args, R11, CALL_ARGS, c).value, m, syms) == Some(m1)
    requires Entered(f.locals, m1, x.adr[pc + |CallCode(f.name, args, c).value|]) == Some(t) &&
             Readable(e, Inside(f, c), t, t.regs[RSP], syms)
    ensures Passed(args, c, m, t, syms) &&
            Reaches(x, Spot(pc, m), Spot(pc + |CallCode(f.name, args, c).value|, r), syms)
    ensures r.regs[RAX] == Seen(e, t.regs[R12], Inside(f, c), t, syms)
    ensures r.regs[RSP] == m.regs[RSP] && (forall q | q in PRESERVED && q != R12 :: r.regs[q] == m.regs[q])
    ensures r.regs[R12] == R12Thread(FirstSix(args), m.regs[R12], c, m, syms) && Kept(m, r, keep)
  {
    hide Run, Stands, Unique, Apart, Reaches, Marshal, CallCode, FnCode, Passed, R12Thread, WellFormed, TotalSize,
      Entered, FnAt, Result, ExprCode, Seen, Readable, Depth, Walks, Returned, CalleeWalks, Guard, CallsAt, Left,
      Leaving, MaxDepth, FirstSix, LeavesAt;
    OnlyReturn(x, j, f, e, c);
    InsideWellFormed(f, c);
    var t' := CallEnters(x, pc, f.name, args, c, m, m1, j, f.locals, syms);
    var at := Spot(pc + |Marshal(args, R11, CALL_ARGS, c).value|, m1);
    var keep' := Guard(keep, m.regs[RSP] as int - 16);
    assert Above(keep', t.regs[RSP]) by { GuardAbove(keep, m.regs[RSP] as int, t.regs[RSP] as int); }
    var w := ExpressionWalks(x, BodyAt(j, f.locals), e, Inside(f, c), t, keep', syms);
    CallsHere(x, at, j, f.locals);
    WalksFrom(x, at, j, f.locals, t, w, keep, syms);
    r := CallReaches(x, at, j, f.locals, w, keep, syms);
    LeftRax(x, j, f.locals, w, at, t, r);
    ReachTrans(x, Spot(pc, m), at, Spot(at.pc + 1, r), syms);
  }

  // ---- the linked bytes ----

  /** The calls of a linked program return to different addresses. */
  lemma BuiltApart(g: Image, base: Word)
    requires Built(g) && AllLegal(g.items) && base as int + |g.code| < TWO64
    ensures Apart(ListingOf(g, base))
  {
    hide Built, Off, AllLegal;
    var x := ListingOf(g, base);
    forall i, j | 0 <= i < |x.items| && 0 <= j < |x.items| && x.items[i].CallTo? && x.items[j].CallTo? &&
      x.adr[i + 1] == x.adr[j + 1]
      ensures i == j
    {
      ReturnAddress(g, base, i);
      ReturnAddress(g, base, j);
      if i < j {
        CallsGrow(g, i, j);
      } else if j < i {
        CallsGrow(g, j, i);
      }
    }
  }

  lemma ReturnAddress(g: Image, base: Word, i: nat)
    requires Built(g) && AllLegal(g.items) && base as int + |g.code| < TWO64 && i < |g.items|
    ensures ListingOf(g, base).adr[i + 1] == base as int + Off(g, i + 1)
  {
    hide Built, Off, AllLegal;
    OffWithin(g, i + 1);
    NoWrap(base + Off(g, i + 1));
  }

  /** A call's bytes end before the next call's. */
  lemma CallsGrow(g: Image, i: nat, j: nat)
    requires AllLegal(g.items) && i < j < |g.items| && g.items[j].CallTo?
    ensures Off(g, i + 1) < Off(g, j + 1)
  {
    hide Size, AllLegal, ItemBytes;
    assert g.items[..j][..i + 1] == g.items[..i + 1];
    assert AllLegal(g.items[..j]) by { LegalPrefix(g.items, j); }
    SizePrefix(g.items[..j], i + 1, g.wide);
    OffNext(g, j);
    LeaLength(g.items[j], g.wide);
  }

  lemma LegalPrefix(items: seq<Item>, k: nat)
    requires AllLegal(items) && k <= |items|
    ensures AllLegal(items[..k])
  {
  }

  /** A call statement on the linked bytes: fetch, decode and execute from its first byte come to the first byte behind
      it, through the callee and everything it calls, with the registers and guarded bytes of `CallStatement`. */
  lemma CallOnBytes(g: Image, base: Word, pc: nat, callee: string, args: seq<Expr>, c: Ctx, m: Machine, m1: Machine,
                    j: nat,
                    locals: seq<(string, nat)>, inner: Walk, keep: iset<int>, syms: Syms) returns (r: Machine, n: nat)
    requires Built(g) && AllLegal(g.items) && Addresses(g, base, syms) && base as int + |g.code| < TWO64
    requires WellFormed(c) && CallCode(callee, args, c).Some? &&
             Stands(ListingOf(g, base), pc, CallCode(callee, args, c).value)
    requires AllReadable(FirstSix(args), c, m, syms) && 8 * (|FirstSix(args)| + MaxDepth(FirstSix(args))) <= m.regs[RSP]
    requires FnAt(ListingOf(g, base), j, locals) && g.items[j] == Lab(UserLabel(callee)) &&
             FrameSize(locals) <= m.regs[RSP] && Above(keep, m.regs[RSP])
    requires Marshal(args, R11, CALL_ARGS, c).Some? && Run(Marshal(args, R11, CALL_ARGS, c).value, m, syms) == Some(m1)
    requires CalleeWalks(ListingOf(g, base), j, locals, inner, Spot(pc + |Marshal(args, R11, CALL_ARGS, c).value|, m1),
             keep, syms)
    ensures pc + |CallCode(callee, args, c).value| <= |g.items|
    ensures CpuRun(g.code, base, Cpu(m, Off(g, pc)), n) == Some(Cpu(r, Off(g, pc + |CallCode(callee, args, c).value|)))
    ensures r.regs[RSP] == m.regs[RSP] && (forall q | q in PRESERVED && q != R12 :: r.regs[q] == m.regs[q])
    ensures r.regs[R12] == R12Thread(FirstSix(args), m.regs[R12], c, m, syms) && Kept(m, r, keep)
  {
    hide Run, Unique, Apart, Reaches, Marshal, CallCode, R12Thread, WellFormed, TotalSize, Entered, FnAt, CalleeWalks,
      Result, CpuRun, Off,
         Built, Addresses, AllLegal, ListingOf, AllReadable;
    var x := ListingOf(g, base);
    ListingItems(g, base);
    BuiltUnique(g);
    BuiltApart(g, base);
    r := CallStatement(x, pc, callee, args, c, m, m1, j, locals, inner, keep, syms);
    n := ReachBytes(g, base, Spot(pc, m), Spot(pc + |CallCode(callee, args, c).value|, r), syms);
  }

  lemma ListingItems(g: Image, base: Word)
    requires AllLegal(g.items)
    ensures ListingOf(g, base).items == g.items
  {
  }

  /** What the items reach, the bytes reach. */
  lemma ReachBytes(g: Image, base: Word, s: Spot, t: Spot, syms: Syms) returns (n: nat)
    requires Built(g) && AllLegal(g.items) && Addresses(g, base, syms) && base as int + |g.code| < TWO64
    requires s.pc <= |g.items| && Reaches(ListingOf(g, base), s, t, syms)
    ensures t.pc <= |g.items| && CpuRun(g.code, base, Cpu(s.m, Off(g, s.pc)), n) == Some(Cpu(t.m, Off(g, t.pc)))
  {
    hide FlowRun, CpuRun, Off, Built, Addresses, ListingOf;
    var k: nat :| FlowRun(ListingOf(g, base), s, k, syms) == Some(t);
    n := FlowBytes(g, base, s, t, k, syms);
  }
}
