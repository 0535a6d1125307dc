/** Inside an activation: the code of a statement does to registers, flags and stack slots what the interpreter says. */
module FnStatements {
  import opened Wrappers
  import opened Words
  import opened Memory
  import opened Regs
  import opened Isa
  import opened Assembly
  import opened Ast
  import opened Codegen
  import opened Semantics
  import opened ExprProofs
  import opened StmtProofs
  import opened FnLanguage

  /** Address of a local's word. */
  function SlotAt(c: Ctx, m: Machine, n: string): Word
    requires n in c.locals
  {
    Wrap(m.regs[RBP] + c.locals[n])
  }

  /** The words of the locals lie between rsp and `lo`, apart from each other. */
  ghost predicate Slots(c: Ctx, m: Machine, lo: int) {
    && m.regs[RSP] <= lo
    && (forall n <- c.locals :: m.regs[RSP] <= SlotAt(c, m, n) && SlotAt(c, m, n) + 8 <= lo)
    && (forall a, b | a in c.locals && b in c.locals && a != b ::
          SlotAt(c, m, a) + 8 <= SlotAt(c, m, b) || SlotAt(c, m, b) + 8 <= SlotAt(c, m, a))
  }

  ghost predicate KnownMatch(st: FnState, m: Machine) {
    && st.known <= USER && (forall r <- st.known :: m.regs[r] == st.regs[r])
    && (st.flags.Some? ==> m.flags == st.flags.value)
  }

  ghost predicate LocalsMatch(c: Ctx, locals: map<string, Word>, m: Machine) {
    forall n <- locals :: n in c.locals && Load64(m.mem, SlotAt(c, m, n)) == locals[n]
  }

  ghost predicate FrameMatch(c: Ctx, st: FnState, m: Machine) {
    KnownMatch(st, m) && LocalsMatch(c, st.locals, m)
  }

  /** rsp and rbp are the same, and so is everything from `lo` upward. */
  ghost predicate SameFrame(m: Machine, m': Machine, lo: int) {
    m'.regs[RSP] == m.regs[RSP] && m'.regs[RBP] == m.regs[RBP] && SameFrom(m.mem, m'.mem, lo)
  }

  /** Stack slots a statement's operands need. */
  function StmtDepth(s: Stmt): nat {
    match s
    case Cmp(l, r) => if Depth(l) > Depth(r) then Depth(l) else Depth(r)
    case CpuBin(_, _, v) => Depth(v)
    case _ => 0
  }

  // ---- operands ----

  /** An operand the interpreter can evaluate has that value on the machine, and reads r12 in time. */
  lemma {:induction false} OperandSees(e: Expr, c: Ctx, st: FnState, m: Machine, lo: int, syms: Syms)
    requires WellFormed(c) && Slots(c, m, lo) && FrameMatch(c, st, m) && Operand(e, c, syms, st).Some?
    ensures Wrap(Value(e, c, m, syms)) == Operand(e, c, syms, st).value && Readable(e, c, m, m.regs[RSP], syms)
    ensures R12Intact(e) && (R12 !in st.known ==> !ReadsR12(e))
  {
    if e.Bin? {
      hide Slots, WellFormed, Value, Readable;
      var st1 := After(e.left, st);
      OperandSees(e.left, c, st, m, lo, syms);
      OperandSees(e.right, c, st1, m, lo, syms);
      BinValue(e.op, e.left, e.right, c, m, syms);
    } else {
      LeafSees(e, c, st, m, lo, syms);
    }
  }

  lemma BinValue(op: BinOp, l: Expr, r: Expr, c: Ctx, m: Machine, syms: Syms)
    ensures Wrap(Value(Bin(op, l, r), c, m, syms)) ==
            Wrap(Apply(op, Wrap(Value(l, c, m, syms)), Wrap(Value(r, c, m, syms))))
    ensures Readable(l, c, m, m.regs[RSP], syms) && Readable(r, c, m, m.regs[RSP], syms) ==>
              Readable(Bin(op, l, r), c, m, m.regs[RSP], syms)
  {
    ApplyWraps(op, Value(l, c, m, syms), Value(r, c, m, syms));
  }

  lemma LeafSees(e: Expr, c: Ctx, st: FnState, m: Machine, lo: int, syms: Syms)
    requires !e.Bin? && WellFormed(c) && Slots(c, m, lo) && FrameMatch(c, st, m) && Operand(e, c, syms, st).Some?
    ensures Wrap(Value(e, c, m, syms)) == Operand(e, c, syms, st).value && Readable(e, c, m, m.regs[RSP], syms)
    ensures R12Intact(e) && (R12 !in st.known ==> !ReadsR12(e))
  {
    hide Resolve, Load64;
    WrapWord(Operand(e, c, syms, st).value);
  }

  lemma WrapWord(w: Word)
    ensures Wrap(w) == w
  {
  }

  // ---- operations ----

  /** Where flags are unknown, what the interpreter gives does not depend on them. */
  lemma OperationBlind(op: CpuOp, a: Word, v: Word, flags: Option<Flags>, f: Flags)
    requires Operation(op, a, v, flags).Some? && (flags.Some? ==> f == flags.value)
    ensures OpSpec(op, a, v, f).Some? && OpSpec(op, a, v, f).value.0 == Operation(op, a, v, flags).value.0
    ensures Operation(op, a, v, flags).value.1.Some? ==>
              OpSpec(op, a, v, f).value.1 == Operation(op, a, v, flags).value.1.value
  {
    if flags.None? && IsShift(op) {
      hide ShiftFlags, RotateLeft, RotateRight;
    } else {
      hide ShiftResult, ShiftFlags, AluResult, AluFlags, MulResult, MulFlags, SignedDivMod;
    }
  }

  // ---- the locals ----

  /** A statement that writes nothing at or above rsp. */
  lemma LocalsStay(c: Ctx, locals: map<string, Word>, m: Machine, m': Machine, lo: int)
    requires Slots(c, m, lo) && LocalsMatch(c, locals, m)
    requires m'.regs[RBP] == m.regs[RBP] && SameFrom(m.mem, m'.mem, m.regs[RSP])
    ensures LocalsMatch(c, locals, m')
  {
    hide Load64;
    forall n <- locals
      ensures n in c.locals && Load64(m'.mem, SlotAt(c, m', n)) == locals[n]
    {
      Load64Same(m.mem, m'.mem, SlotAt(c, m, n));
    }
  }

  /** A statement that writes the word of one local. */
  lemma LocalChanges(c: Ctx, locals: map<string, Word>, d: string, x: Word, m: Machine, m': Machine, lo: int)
    requires Slots(c, m, lo) && LocalsMatch(c, locals, m) && d in c.locals && m'.regs[RBP] == m.regs[RBP]
    requires Load64(m'.mem, SlotAt(c, m, d)) == x
    requires forall a | a >= m.regs[RSP] && !(SlotAt(c, m, d) <= a < SlotAt(c, m, d) + 8) ::
             Rd(m'.mem, a) == Rd(m.mem, a)
    ensures LocalsMatch(c, locals[d := x], m') && SameFrom(m.mem, m'.mem, lo)
  {
    hide Load64;
    forall n <- locals[d := x]
      ensures n in c.locals && Load64(m'.mem, SlotAt(c, m', n)) == locals[d := x][n]
    {
      if n != d {
        Load64Same(m.mem, m'.mem, SlotAt(c, m, n));
      }
    }
  }

  // ---- statements ----

  lemma CompareRuns(l: Expr, r: Expr, c: Ctx, st: FnState, m: Machine, lo: int, syms: Syms) returns (m': Machine)
    requires WellFormed(c) && Slots(c, m, lo) && FrameMatch(c, st, m) && Compared(l, r, c, syms, st).Some?
    requires CmpCode(l, r, c).Some? && 8 * Depth(l) + 16 <= m.regs[RSP] && 8 * Depth(r) + 16 <= m.regs[RSP]
    ensures Run(CmpCode(l, r, c).value, m, syms) == Some(m')
    ensures FrameMatch(c, Compared(l, r, c, syms, st).value, m') && SameFrame(m, m', lo)
  {
    hide Run, AluFlags, Value, Readable, R12Intact, CmpCode, Slots, LocalsMatch, Operand, WellFormed;
    OperandSees(l, c, st, m, lo, syms);
    OperandSees(r, c, After(l, st), m, lo, syms);
    m' := CmpCorrect(l, r, c, m, syms);
    LocalsStay(c, st.locals, m, m', lo);
    assert SameFrom(m.mem, m'.mem, lo) by { AboveStack(c, m, m', lo); }
  }

  lemma AboveStack(c: Ctx, m: Machine, m': Machine, lo: int)
    requires Slots(c, m, lo) && SameFrom(m.mem, m'.mem, m.regs[RSP])
    ensures SameFrom(m.mem, m'.mem, lo)
  {
  }

  /** What is known after an operation on a register. */
  lemma RegisterKnown(op: CpuOp, r: Reg, v: Expr, st: FnState, x: Word, m: Machine, m': Machine, f: Flags)
    requires KnownMatch(st, m) && r in USER && OnRegister(op, r, v, x, st).Some?
    requires (!Compound(v) ==> f == m.flags) && OpSpec(op, m.regs[r], x, f).Some?
    requires RegStatement(m, m', r, !Compound(v), OpSpec(op, m.regs[r], x, f).value)
    ensures KnownMatch(OnRegister(op, r, v, x, st).value, m')
  {
    hide OpSpec, Operation;
    if op == Set {
      SetSpec(m.regs[r], x, f);
    } else {
      OperationBlind(op, st.regs[r], x, After(v, st).flags, f);
    }
  }

  /** It faults only where the interpreter gives nothing, which includes the destinations the operand replaces. */
  lemma RegisterDefined(op: CpuOp, r: Reg, v: Expr, st: FnState, x: Word, m: Machine, f: Flags)
    requires KnownMatch(st, m) && OnRegister(op, r, v, x, st).Some? && (!Compound(v) ==> f == m.flags)
    ensures OpSpec(op, m.regs[r], x, f).Some? && (op != Set && Compound(v) ==> r != R12)
  {
    hide OpSpec, Operation;
    if op == Set {
      SetSpec(m.regs[r], x, f);
    } else {
      OperationBlind(op, st.regs[r], x, After(v, st).flags, f);
    }
  }

  lemma RegisterRuns(op: CpuOp, d: string, v: Expr, c: Ctx, st: FnState, x: Word, m: Machine, lo: int, syms: Syms)
    returns (m': Machine)
    requires WellFormed(c) && Slots(c, m, lo) && FrameMatch(c, st, m) && Operand(v, c, syms, st) == Some(x)
    requires d !in c.locals && Resolve(d).Some? && OnRegister(op, Resolve(d).value, v, x, st).Some?
    requires CpuBinCode(op, d, v, c).Some? && 8 * Depth(v) + 16 <= m.regs[RSP]
    ensures Run(CpuBinCode(op, d, v, c).value, m, syms) == Some(m')
    ensures FrameMatch(c, OnRegister(op, Resolve(d).value, v, x, st).value, m') && SameFrame(m, m', lo)
  {
    hide Run, Value, Readable, R12Intact, CpuBinCode, Slots, LocalsMatch, Operand, WellFormed, Resolve, OpSpec,
      KnownMatch, SeenFlags, OnRegister;
    var r := Resolve(d).value;
    ResolveIsUser(d);
    OperandSees(v, c, st, m, lo, syms);
    var f := SeenFlags(v, m.regs[R12], c, m, syms);
    SimpleFlags(v, c, m, syms);
    RegisterDefined(op, r, v, st, x, m, f);
    CpuBinRegister(op, d, v, c, m, syms);
    m' := Run(CpuBinCode(op, d, v, c).value, m, syms).value;
    RegisterKnown(op, r, v, st, x, m, m', f);
    LocalsStay(c, st.locals, m, m', lo);
    assert OnRegister(op, r, v, x, st).value.locals == st.locals by { RegisterLocals(op, r, v, x, st); }
    assert SameFrom(m.mem, m'.mem, lo) by { AboveStack(c, m, m', lo); }
  }

  lemma RegisterLocals(op: CpuOp, r: Reg, v: Expr, x: Word, st: FnState)
    requires OnRegister(op, r, v, x, st).Some?
    ensures OnRegister(op, r, v, x, st).value.locals == st.locals
  {
    hide Operation;
  }

  lemma SimpleFlags(e: Expr, c: Ctx, m: Machine, syms: Syms)
    ensures !Compound(e) ==> SeenFlags(e, m.regs[R12], c, m, syms) == m.flags
  {
  }

  lemma LocalRuns(op: CpuOp, d: string, v: Expr, c: Ctx, st: FnState, x: Word, m: Machine, lo: int, syms: Syms)
    returns (m': Machine)
    requires WellFormed(c) && Slots(c, m, lo) && FrameMatch(c, st, m) && Operand(v, c, syms, st) == Some(x)
    requires d in c.locals && OnLocal(op, d, v, x, st).Some?
    requires CpuBinCode(op, d, v, c).Some? && 8 * Depth(v) + 16 <= m.regs[RSP]
    ensures Run(CpuBinCode(op, d, v, c).value, m, syms) == Some(m')
    ensures FrameMatch(c, OnLocal(op, d, v, x, st).value, m') && SameFrame(m, m', lo)
  {
    hide Run, Value, Readable, R12Intact, CpuBinCode, Slots, LocalsMatch, Operand, WellFormed, OpSpec, Operation,
      SeenFlags, Load64;
    OperandSees(v, c, st, m, lo, syms);
    assert m.regs[RSP] <= SlotAt(c, m, d) by { SlotAbove(c, m, lo, d); }
    CpuBinLocal(op, d, v, c, m, syms);
    var was := Load64(m.mem, SlotAt(c, m, d));
    var f := SeenFlags(v, m.regs[R12], c, m, syms);
    SimpleFlags(v, c, m, syms);
    if op == Set {
      SetSpec(was, x, f);
    } else {
      assert was == st.locals[d] by { LocalIs(c, st, m, d); }
      OperationBlind(op, was, x, st.flags, f);
    }
    m' := Run(CpuBinCode(op, d, v, c).value, m, syms).value;
    LocalChanges(c, st.locals, d, OnLocal(op, d, v, x, st).value.locals[d], m, m', lo);
  }

  lemma SlotAbove(c: Ctx, m: Machine, lo: int, d: string)
    requires Slots(c, m, lo) && d in c.locals
    ensures m.regs[RSP] <= SlotAt(c, m, d)
  {
  }

  lemma LocalIs(c: Ctx, st: FnState, m: Machine, d: string)
    requires LocalsMatch(c, st.locals, m) && d in c.locals && d in st.locals
    ensures Load64(m.mem, SlotAt(c, m, d)) == st.locals[d]
  {
  }

  lemma UnaryRuns(op: CpuUnaryOp, d: string, c: Ctx, st: FnState, m: Machine, lo: int, syms: Syms)
    returns (m': Machine)
    requires Slots(c, m, lo) && FrameMatch(c, st, m) && Unaries(op, d, c, st).Some? && CpuUnaryCode(op, d, c).Some?
    ensures Run(CpuUnaryCode(op, d, c).value, m, syms) == Some(m')
    ensures FrameMatch(c, Unaries(op, d, c, st).value, m') && SameFrame(m, m', lo)
  {
    hide Run, CpuUnaryCode, Slots, LocalsMatch, Resolve, UnaryFlags, UnaryResult, Load64;
    if d in c.locals {
      m' := CpuUnaryLocal(op, d, c, m, syms);
      assert Load64(m.mem, SlotAt(c, m, d)) == st.locals[d] by { LocalIs(c, st, m, d); }
      LocalChanges(c, st.locals, d, UnaryResult(UnaryOf(op), st.locals[d]), m, m', lo);
    } else {
      ResolveIsUser(d);
      CpuUnaryRegister(op, d, c, m, syms);
      m' := Run(CpuUnaryCode(op, d, c).value, m, syms).value;
      LocalsStay(c, st.locals, m, m', lo);
    }
  }

  /** The code of a statement that falls through, run in a matching frame, leaves the frame the interpreter says. */
  lemma StraightRuns(s: Stmt, c: Ctx, inFn: bool, st: FnState, m: Machine, lo: int, syms: Syms) returns (m': Machine)
    requires WellFormed(c) && Slots(c, m, lo) && FrameMatch(c, st, m) && Straight(s, c, syms, st).Some?
    requires StmtCode(s, c, inFn).Some? && 8 * StmtDepth(s) + 16 <= m.regs[RSP]
    ensures Run(StmtCode(s, c, inFn).value, m, syms) == Some(m')
    ensures FrameMatch(c, Straight(s, c, syms, st).value, m') && SameFrame(m, m', lo)
  {
    hide Run, CmpCode, CpuBinCode, CpuUnaryCode, Slots, FrameMatch, Operand, WellFormed, Resolve, OnLocal, OnRegister,
      Compared, Unaries;
    if s.Label? {
      m' := m;
      Run1(Lab(UserLabel(s.name)), m, syms);
    } else if s.Cmp? {
      m' := CompareRuns(s.left, s.right, c, st, m, lo, syms);
    } else if s.CpuUnary? {
      m' := UnaryRuns(s.uop, s.dest, c, st, m, lo, syms);
    } else {
      var x := Operand(s.value, c, syms, st).value;
      if s.dest in c.locals {
        m' := LocalRuns(s.op, s.dest, s.value, c, st, x, m, lo, syms);
      } else {
        m' := RegisterRuns(s.op, s.dest, s.value, c, st, x, m, lo, syms);
      }
    }
  }
}
