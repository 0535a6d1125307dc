/** Whole-program simulation: the linked bytes follow the label-level interpreter. */
module ProgramSimulation {
  import opened Wrappers
  import opened Words
  import opened Memory
  import opened Regs
  import opened Isa
  import opened Encoding
  import opened Assembly
  import opened Ast
  import opened Codegen
  import opened Semantics
  import opened ExprProofs
  import opened StmtProofs
  import opened Simulation
  import opened SourceLanguage

  /** Integer constants: those not shadowed by a string of the same name. */
  function IntConsts(c: Ctx): map<string, int> {
    map n | n in c.consts && n !in c.strings :: c.consts[n]
  }

  /** A top-level program of the simulated language at the front of a linked image. */
  ghost predicate Compiled(prog: seq<Stmt>, c: Ctx, g: Image) {
    && c.args == map[] && c.locals == map[]
    && SimpleProgram(prog, IntConsts(c))
    && Built(g)
    && BodyCode(prog, c, false).Some? && BodyCode(prog, c, false).value <= g.items
  }

  /** Index of the first item of statement k. */
  function Start(prog: seq<Stmt>, c: Ctx, k: nat): nat
    requires k <= |prog|
  {
    var b := BodyCode(prog[..k], c, false);
    if b.None? then 0 else |b.value|
  }

  lemma {:induction false} BodyPrefix(prog: seq<Stmt>, c: Ctx, inFn: bool, k: nat)
    requires BodyCode(prog, c, inFn).Some? && k <= |prog|
    ensures BodyCode(prog[..k], c, inFn).Some?
    ensures BodyCode(prog[..k], c, inFn).value <= BodyCode(prog, c, inFn).value
    decreases |prog|
  {
    hide StmtCode;
    if k == |prog| {
      assert prog[..k] == prog;
    } else {
      var n := |prog| - 1;
      BodyPrefix(prog[..n], c, inFn, k);
      assert prog[..n][..k] == prog[..k];
    }
  }

  /** The items of statement k sit in the image where its start says. */
  lemma Segment(prog: seq<Stmt>, c: Ctx, g: Image, k: nat)
    requires Compiled(prog, c, g) && k < |prog|
    ensures StmtCode(prog[k], c, false).Some?
    ensures Start(prog, c, k + 1) == Start(prog, c, k) + |StmtCode(prog[k], c, false).value|
    ensures Start(prog, c, k + 1) <= |g.items|
    ensures g.items[Start(prog, c, k)..Start(prog, c, k + 1)] == StmtCode(prog[k], c, false).value
  {
    hide StmtCode, Built, SimpleProgram;
    BodyPrefix(prog, c, false, k + 1);
    assert prog[..k + 1][..k] == prog[..k];
  }

  /** Source and machine agree: same position, same user registers and flags, stack as at the start. */
  ghost predicate Match(prog: seq<Stmt>, c: Ctx, g: Image, m0: Machine, s: Src, cpu: Cpu) {
    && s.at <= |prog|
    && AllLegal(g.items) && Start(prog, c, s.at) <= |g.items|
    && cpu.pc == Off(g, Start(prog, c, s.at))
    && SameUser(s, cpu.m)
    && cpu.m.regs[RSP] == m0.regs[RSP] && cpu.m.regs[RBP] == m0.regs[RBP] && cpu.m.regs[R11] == m0.regs[R11]
    && SameFrom(m0.mem, cpu.m.mem, m0.regs[RSP])
  }

  ghost predicate SameUser(s: Src, m: Machine) {
    && m.flags == s.flags
    && forall r <- USER :: m.regs[r] == s.regs[r]
  }

  /** Machine instructions executed by one statement. */
  function Steps(s: Stmt, c: Ctx): nat {
    match StmtCode(s, c, false) case None => 0 case Some(items) => Count(items)
  }

  // ---- straight-line statements ----

  predicate PlainItem(it: Item) {
    StraightItem(it) && !it.LeaTo?
  }

  predicate PlainCode(items: seq<Item>) {
    forall i | 0 <= i < |items| :: PlainItem(items[i])
  }

  lemma PlainConcat(a: seq<Item>, b: seq<Item>)
    requires PlainCode(a) && PlainCode(b)
    ensures PlainCode(a + b)
  {
  }

  lemma OperandPlain(e: Expr, dst: Reg, c: Ctx)
    requires c.args == map[] && c.locals == map[] && SimpleOperand(e, IntConsts(c))
    ensures ExprCode(e, dst, c).Some? && PlainCode(ExprCode(e, dst, c).value) && !Compound(e)
    ensures WellFormed(c) && R12Intact(e) && Depth(e) == 0
  {
  }

  lemma OperatePlain(op: CpuOp, d: Reg, v: Reg, e: Expr)
    requires op != Set
    ensures PlainCode(Operate(op, d, v, e))
  {
    hide ShiftByReg, Division;
    if IsShift(op) {
      ShiftPlain(ShiftOf(op), d, v);
    } else if op in {DivOp, ModOp} {
      DivisionPlain(d, v, if op == ModOp then RDX else RAX);
    }
  }

  lemma ShiftPlain(op: ShiftOp, d: Reg, v: Reg)
    ensures PlainCode(ShiftByReg(op, d, v))
  {
    var save: Reg := if d == RCX then RAX else RCX;
    assert PlainCode([Ins(Push(save))]) && PlainCode([Ins(Pop(save))]) && PlainCode(Move(RCX, v));
    if d == RCX {
      var a, b, s, m := [Ins(Push(RAX))], Move(RAX, RCX), [Ins(ShiftCl(op, RAX))], Move(RCX, RAX);
      PlainConcat(a, b);
      PlainConcat(a + b, Move(RCX, v));
      PlainConcat(a + b + Move(RCX, v), s);
      PlainConcat(a + b + Move(RCX, v) + s, m);
      PlainConcat(a + b + Move(RCX, v) + s + m, [Ins(Pop(RAX))]);
    } else {
      var a, s := [Ins(Push(RCX))], [Ins(ShiftCl(op, d))];
      PlainConcat(a, Move(RCX, v));
      PlainConcat(a + Move(RCX, v), s);
      PlainConcat(a + Move(RCX, v) + s, [Ins(Pop(RCX))]);
    }
  }

  lemma DivisionPlain(d: Reg, v: Reg, result: Reg)
    ensures PlainCode(Division(d, v, result))
  {
    var push, pop := [Ins(Push(RAX)), Ins(Push(RDX))], [Ins(Pop(RDX)), Ins(Pop(RAX))];
    var core := Move(RAX, d) + [Ins(Cqo), Ins(Idiv(v))];
    PlainConcat(Move(RAX, d), [Ins(Cqo), Ins(Idiv(v))]);
    PlainConcat(push, core);
    PlainConcat(push + core, Move(v, result));
    PlainConcat(pop, Move(d, v));
    PlainConcat(push + core + Move(v, result), pop + Move(d, v));
  }

  predicate Control(s: Stmt) {
    s.Goto? || s.JumpIf?
  }

  lemma StmtPlain(s: Stmt, c: Ctx)
    requires c.args == map[] && c.locals == map[] && Simple(s, IntConsts(c)) && !Control(s)
    ensures StmtCode(s, c, false).Some? && PlainCode(StmtCode(s, c, false).value)
  {
    hide Operate, ExprCode, Resolve;
    if s.Cmp? {
      OperandPlain(s.left, SCRATCH, c);
      OperandPlain(s.right, SCRATCH, c);
    } else if s.CpuBin? {
      OperandPlain(s.value, SCRATCH, c);
      OperandPlain(s.value, Resolve(s.dest).value, c);
      if s.op != Set {
        OperatePlain(s.op, Resolve(s.dest).value, SCRATCH, s.value);
      }
    }
  }

  lemma OperandValue(e: Expr, c: Ctx, s: Src, m: Machine, syms: Syms)
    requires c.args == map[] && c.locals == map[] && SimpleOperand(e, IntConsts(c)) && SameUser(s, m)
    ensures OperandWord(e, IntConsts(c), s.regs) == Wrap(Value(e, c, m, syms))
    ensures Readable(e, c, m, m.regs[RSP], syms)
  {
    if e.RegName? {
      ResolveIsUser(e.name);
    }
  }

  /** Machine and interpreter agree after one straight-line statement. */
  ghost predicate SameEffect(r: Option<Machine>, o: SrcOutcome, s: Src, m: Machine) {
    && !o.Halted? && !o.Left? && (r.Some? <==> o.Next?)
    && (o.Next? ==>
         && o.s.at == s.at + 1 && SameUser(o.s, r.value)
         && r.value.regs[RSP] == m.regs[RSP] && r.value.regs[RBP] == m.regs[RBP] && r.value.regs[R11] == m.regs[R11]
         && SameFrom(m.mem, r.value.mem, m.regs[RSP]))
  }

  lemma CmpStep(prog: seq<Stmt>, c: Ctx, s: Src, m: Machine)
    requires c.args == map[] && c.locals == map[] && SimpleProgram(prog, IntConsts(c))
    requires s.at < |prog| && prog[s.at].Cmp? && SameUser(s, m) && m.regs[RSP] >= 32
    requires StmtCode(prog[s.at], c, false).Some?
    ensures SameEffect(Run(StmtCode(prog[s.at], c, false).value, m, map[]), SrcStep(prog, IntConsts(c), s), s, m)
  {
    hide Run, AluFlags, ExprCode, CmpCode, Readable, Value, OperandWord;
    var st := prog[s.at];
    OperandPlain(st.left, SCRATCH, c);
    OperandPlain(st.right, SCRATCH, c);
    OperandValue(st.left, c, s, m, map[]);
    OperandValue(st.right, c, s, m, map[]);
    var m' := CmpCorrect(st.left, st.right, c, m, map[]);
  }

  lemma BinStep(prog: seq<Stmt>, c: Ctx, s: Src, m: Machine)
    requires c.args == map[] && c.locals == map[] && SimpleProgram(prog, IntConsts(c))
    requires s.at < |prog| && prog[s.at].CpuBin? && SameUser(s, m) && m.regs[RSP] >= 32
    requires StmtCode(prog[s.at], c, false).Some?
    ensures SameEffect(Run(StmtCode(prog[s.at], c, false).value, m, map[]), SrcStep(prog, IntConsts(c), s), s, m)
  {
    hide Run, OpSpec, ExprCode, CpuBinCode, Resolve, Readable, Value, OperandWord;
    var st := prog[s.at];
    OperandPlain(st.value, SCRATCH, c);
    OperandValue(st.value, c, s, m, map[]);
    ResolveIsUser(st.dest);
    OperandPlain(st.value, Resolve(st.dest).value, c);
    CpuBinRegister(st.op, st.dest, st.value, c, m, map[]);
  }

  lemma UnaryStep(prog: seq<Stmt>, c: Ctx, s: Src, m: Machine)
    requires c.args == map[] && c.locals == map[] && SimpleProgram(prog, IntConsts(c))
    requires s.at < |prog| && prog[s.at].CpuUnary? && SameUser(s, m) && m.regs[RSP] >= 32
    requires StmtCode(prog[s.at], c, false).Some?
    ensures SameEffect(Run(StmtCode(prog[s.at], c, false).value, m, map[]), SrcStep(prog, IntConsts(c), s), s, m)
  {
    hide Run, UnaryFlags, UnaryResult, Resolve, CpuUnaryCode, ExprCode, CpuBinCode, CmpCode, CallCode, SyscallCode;
    var st := prog[s.at];
    assert StmtCode(st, c, false) == CpuUnaryCode(st.uop, st.dest, c);
    hide StmtCode;
    ResolveIsUser(st.dest);
    CpuUnaryRegister(st.uop, st.dest, c, m, map[]);
  }

  lemma LabelStep(prog: seq<Stmt>, c: Ctx, s: Src, m: Machine)
    requires SimpleProgram(prog, IntConsts(c)) && s.at < |prog| && prog[s.at].Label? && SameUser(s, m)
    ensures SameEffect(Run(StmtCode(prog[s.at], c, false).value, m, map[]), SrcStep(prog, IntConsts(c), s), s, m)
  {
    hide Run;
    var st := prog[s.at];
    Run1(Lab(UserLabel(st.name)), m, map[]);
    LabStep(Lab(UserLabel(st.name)), m, map[]);
  }

  /** A straight-line statement: its code, run from a matching state, has the effect the interpreter
      gives it, and faults exactly when the interpreter does. */
  lemma StraightStep(prog: seq<Stmt>, c: Ctx, s: Src, m: Machine)
    requires c.args == map[] && c.locals == map[] && SimpleProgram(prog, IntConsts(c))
    requires s.at < |prog| && !Control(prog[s.at]) && SameUser(s, m) && m.regs[RSP] >= 32
    requires StmtCode(prog[s.at], c, false).Some?
    ensures SameEffect(Run(StmtCode(prog[s.at], c, false).value, m, map[]), SrcStep(prog, IntConsts(c), s), s, m)
  {
    hide Run, SameEffect, SrcStep, StmtCode;
    var st := prog[s.at];
    assert Simple(st, IntConsts(c));
    if st.Label? {
      LabelStep(prog, c, s, m);
    } else if st.Cmp? {
      CmpStep(prog, c, s, m);
    } else if st.CpuBin? {
      BinStep(prog, c, s, m);
    } else {
      UnaryStep(prog, c, s, m);
    }
  }

  // ---- control flow ----

  /** A label of the program is linked to the start of the statement that defines it. */
  lemma LabelAddress(prog: seq<Stmt>, c: Ctx, g: Image, l: string)
    requires Compiled(prog, c, g) && FindLabel(prog, l).Some?
    ensures var k := FindLabel(prog, l).value;
            && Start(prog, c, k) <= |g.items| && AllLegal(g.items)
            && UserLabel(l) in g.offs && g.offs[UserLabel(l)] == Off(g, Start(prog, c, k))
  {
    hide Linked, Size;
    var k := FindLabel(prog, l).value;
    Segment(prog, c, g, k);
    var i := Start(prog, c, k);
    assert g.items[i] == g.items[i..Start(prog, c, k + 1)][0] == Lab(UserLabel(l));
    LabelBound(g.items, i, g.wide);
  }

  /** The machine stands at a label of the image that the program does not define, in the source's state. */
  ghost predicate GoneTo(g: Image, m0: Machine, l: string, s: Src, cpu: Cpu) {
    && UserLabel(l) in g.offs && cpu.pc == g.offs[UserLabel(l)] && SameUser(s, cpu.m)
    && cpu.m.regs[RSP] == m0.regs[RSP] && cpu.m.regs[RBP] == m0.regs[RBP] && cpu.m.regs[R11] == m0.regs[R11]
    && SameFrom(m0.mem, cpu.m.mem, m0.regs[RSP])
  }

  /** What a step of the machine shows of a step of the source. */
  ghost predicate StepAgrees(prog: seq<Stmt>, c: Ctx, g: Image, m0: Machine, o: SrcOutcome, r: Option<Cpu>) {
    match o
    case Next(s') => r.Some? && Match(prog, c, g, m0, s', r.value)
    case Left(l, s') => r.Some? && GoneTo(g, m0, l, s', r.value)
    case Halted => false
    case Faulted => r.None?
  }

  lemma ControlStep(prog: seq<Stmt>, c: Ctx, g: Image, base: Word, m0: Machine, s: Src, cpu: Cpu)
    requires Compiled(prog, c, g) && Match(prog, c, g, m0, s, cpu)
    requires s.at < |prog| && Control(prog[s.at])
    ensures StepAgrees(prog, c, g, m0, SrcStep(prog, IntConsts(c), s), CpuStep(g.code, base, cpu))
    ensures Steps(prog[s.at], c) == 1
  {
    hide CpuStep, Built, SimpleProgram, Off, Holds, Count, Start, BodyCode;
    Segment(prog, c, g, s.at);
    var i := Start(prog, c, s.at);
    var items := StmtCode(prog[s.at], c, false).value;
    assert g.items[i] == g.items[i..Start(prog, c, s.at + 1)][0] == items[0];
    assert items == [items[0]];
    CountOne(items[0]);
    JumpBytes(g, base, i, cpu.m);
    if FindLabel(prog, prog[s.at].target).Some? { LabelAddress(prog, c, g, prog[s.at].target); }
  }

  lemma CountOne(it: Item)
    ensures Count([it]) == if it.Lab? then 0 else 1
  {
    assert [it][1..] == [];
  }

  /** One statement: the machine takes Steps instructions to the state the interpreter reaches,
      and faults on the way exactly when the interpreter faults. */
  lemma StepSimulation(prog: seq<Stmt>, c: Ctx, g: Image, base: Word, m0: Machine, s: Src, cpu: Cpu)
    requires Compiled(prog, c, g) && Match(prog, c, g, m0, s, cpu)
    requires s.at < |prog| && m0.regs[RSP] >= 32
    ensures StepAgrees(prog, c, g, m0, SrcStep(prog, IntConsts(c), s), CpuRun(g.code, base, cpu, Steps(prog[s.at], c)))
  {
    hide CpuStep, SrcStep, StmtCode, Built, Off, Simple, SimpleProgram, Count;
    if Control(prog[s.at]) {
      ControlStep(prog, c, g, base, m0, s, cpu);
      OneStep(g.code, base, cpu);
    } else {
      Segment(prog, c, g, s.at);
      assert SimpleProgram(prog, IntConsts(c)) && Simple(prog[s.at], IntConsts(c)) by { SimpleAt(prog, c, s.at); }
      StmtPlain(prog[s.at], c);
      var i, j := Start(prog, c, s.at), Start(prog, c, s.at + 1);
      var items := StmtCode(prog[s.at], c, false).value;
      PlainSegment(g, i, j);
      RunBytes(g, base, map[], i, j, cpu.m);
      StraightStep(prog, c, s, cpu.m);
    }
  }

  lemma SimpleAt(prog: seq<Stmt>, c: Ctx, k: nat)
    requires SimpleProgram(prog, IntConsts(c)) && k < |prog|
    ensures Simple(prog[k], IntConsts(c))
  {
  }

  lemma PlainSegment(g: Image, i: nat, j: nat)
    requires i <= j <= |g.items| && PlainCode(g.items[i..j])
    ensures forall k | i <= k < j :: StraightItem(g.items[k]) && !g.items[k].LeaTo?
  {
    forall k | i <= k < j
      ensures StraightItem(g.items[k]) && !g.items[k].LeaTo?
    {
      assert g.items[k] == g.items[i..j][k - i];
      assert PlainItem(g.items[i..j][k - i]);
    }
  }

  // ---- whole runs ----

  /** Machine instructions taken by n statements from s. */
  function RunSteps(prog: seq<Stmt>, c: Ctx, s: Src, n: nat): nat
    requires SimpleProgram(prog, IntConsts(c))
    decreases n
  {
    if n == 0 || s.at >= |prog| then 0
    else
      Steps(prog[s.at], c) +
      (match SrcStep(prog, IntConsts(c), s) case Next(s') => RunSteps(prog, c, s', n - 1) case _ => 0)
  }

  ghost predicate RunAgrees(prog: seq<Stmt>, c: Ctx, g: Image, m0: Machine, o: SrcOutcome, r: Option<Cpu>) {
    match o
    case Next(s') => r.Some? && Match(prog, c, g, m0, s', r.value)
    case Left(l, s') => r.Some? && GoneTo(g, m0, l, s', r.value)
    case Halted => r.Some? && AtEnd(prog, c, g, r.value)
    case Faulted => r.None?
  }

  ghost predicate AtEnd(prog: seq<Stmt>, c: Ctx, g: Image, cpu: Cpu) {
    && AllLegal(g.items) && Start(prog, c, |prog|) <= |g.items|
    && cpu.pc == Off(g, Start(prog, c, |prog|))
  }

  /** Every run, of any length: the interpreter's state after n statements is the machine's state after
      the corresponding instructions; the machine faults exactly when the interpreter does; when the
      interpreter leaves for a label the program does not define, one inside a function, the machine stands at that
      label; and when it runs off the end, the machine stands at the first byte after the program. */
  lemma {:induction false} RunSimulation(prog: seq<Stmt>, c: Ctx, g: Image, base: Word, m0: Machine, s: Src, cpu: Cpu,
                                         n: nat)
    requires Compiled(prog, c, g) && Match(prog, c, g, m0, s, cpu) && m0.regs[RSP] >= 32
    ensures RunAgrees(prog, c, g, m0, SrcRun(prog, IntConsts(c), s, n),
            CpuRun(g.code, base, cpu, RunSteps(prog, c, s, n)))
    decreases n
  {
    hide CpuStep, SrcStep, Built, Off, SimpleProgram, Steps, Match, AtEnd, SrcRun, RunSteps, CpuRun, GoneTo;
    SrcUnfold(prog, c, s, n);
    CpuRunZero(g.code, base, cpu);
    if n > 0 {
      if s.at >= |prog| {
        HaltsAtEnd(prog, c, s);
        MatchAtEnd(prog, c, g, m0, s, cpu);
      } else {
        StepSimulation(prog, c, g, base, m0, s, cpu);
        var o, k := SrcStep(prog, IntConsts(c), s), Steps(prog[s.at], c);
        if o.Next? {
          var cpu' := CpuRun(g.code, base, cpu, k).value;
          RunSimulation(prog, c, g, base, m0, o.s, cpu', n - 1);
          CpuRunAdd(g.code, base, cpu, k, RunSteps(prog, c, o.s, n - 1));
        }
      }
    }
  }

  lemma SrcUnfold(prog: seq<Stmt>, c: Ctx, s: Src, n: nat)
    requires SimpleProgram(prog, IntConsts(c))
    ensures n == 0 ==> SrcRun(prog, IntConsts(c), s, n) == Next(s) && RunSteps(prog, c, s, n) == 0
    ensures n > 0 ==>
              var o := SrcStep(prog, IntConsts(c), s);
              && SrcRun(prog, IntConsts(c), s, n) == (if o.Next? then SrcRun(prog, IntConsts(c), o.s, n - 1) else o)
              && (s.at >= |prog| ==> RunSteps(prog, c, s, n) == 0)
              && (s.at < |prog| ==>
                    RunSteps(prog, c, s, n) == Steps(prog[s.at], c) +
                      (if o.Next? then RunSteps(prog, c, o.s, n - 1) else 0))
  {
    hide SrcStep, Steps, SimpleProgram;
  }

  lemma HaltsAtEnd(prog: seq<Stmt>, c: Ctx, s: Src)
    requires SimpleProgram(prog, IntConsts(c)) && s.at >= |prog|
    ensures SrcStep(prog, IntConsts(c), s) == Halted
  {
  }

  lemma MatchAtEnd(prog: seq<Stmt>, c: Ctx, g: Image, m0: Machine, s: Src, cpu: Cpu)
    requires Match(prog, c, g, m0, s, cpu) && s.at >= |prog|
    ensures AtEnd(prog, c, g, cpu)
  {
  }
}
