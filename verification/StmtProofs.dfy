/** `cpu:` and `cmp` statements compute their operation and nothing else. */
module StmtProofs {
  import opened Wrappers
  import opened Words
  import opened Memory
  import opened Regs
  import opened Isa
  import opened Assembly
  import opened Ast
  import opened Codegen
  import opened Semantics
  import opened ExprProofs

  /** Result and flags of an operation on a 64-bit destination; None is a fault. */
  function OpSpec(op: CpuOp, a: Word, v: Word, f: Flags): Option<(Word, Flags)> {
    if op == Set then Some((v, f))
    else if IsAlu(op) then Some((AluResult(AluOf(op), a, v), AluFlags(AluOf(op), a, v)))
    else if op == MulOp then Some((MulResult(a, v), MulFlags(a, v)))
    else if IsShift(op) then
      var r := ShiftResult(ShiftOf(op), a, v % 64, f);
      if r.None? then None else Some((r.value, ShiftFlags(ShiftOf(op), a, v % 64, f)))
    else
      var qr := SignedDivMod(a, v);
      if qr.None? then None
      else Some((if op == DivOp then qr.value.0 else qr.value.1, UNDEFINED))
  }

  lemma SetSpec(a: Word, v: Word, f: Flags)
    ensures OpSpec(Set, a, v, f) == Some((v, f))
  {
  }

  /** Division of the signed values, rounding toward zero; None if it cannot be represented. */
  function SignedDivMod(a: Word, v: Word): Option<(Word, Word)> {
    if v == 0 || !FitsSigned64(TruncDiv(Signed(a), Signed(v))) then None
    else Some((Wrap(TruncDiv(Signed(a), Signed(v))), Wrap(TruncMod(Signed(a), Signed(v)))))
  }

  /** `cqo; idiv` divides the sign-extended 64-bit dividend. */
  lemma SignExtendedDividend(a: Word, v: Word)
    ensures Divide(if a >= TWO63 then TWO64 - 1 else 0, a, v) == SignedDivMod(a, v)
  {
    assert Dividend(if a >= TWO63 then TWO64 - 1 else 0, a) == Signed(a);
  }

  lemma Run2(i: Item, j: Item, m: Machine, syms: Syms)
    ensures Run([i, j], m, syms) ==
            if Step(i, m, syms).None? then None else Step(j, Step(i, m, syms).value, syms)
  {
    hide Step;
    assert [i] + [j] == [i, j];
    Run1(i, m, syms);
    RunConcat([i], [j], m, syms);
    if Step(i, m, syms).Some? {
      Run1(j, Step(i, m, syms).value, syms);
    }
  }

  /** Push then pop around a computation that leaves the slot and rsp alone restores the register. */
  lemma PushPop(r: Reg, m: Machine, m': Machine)
    requires r != RSP && m.regs[RSP] >= 8
    requires m'.regs[RSP] == m.regs[RSP] - 8
    requires Load64(m'.mem, m.regs[RSP] - 8) == Load64(PushValue(m, m.regs[r]).mem, m.regs[RSP] - 8)
    ensures Exec(Pop(r), m') == Some(m'.Set(RSP, m.regs[RSP]).Set(r, m.regs[r]))
  {
    hide Load64, Store64;
    LoadStore64(m.mem, m.regs[RSP] - 8, m.regs[r]);
  }

  predicate OperandReg(dst: Reg, v: Reg) {
    dst != v && dst != RSP && (v == R12 || v == R15)
  }

  /** The state after an operation: destination and flags as specified, one scratch register lost. */
  ghost predicate Operated(m: Machine, m': Machine, dst: Reg, v: Reg, spec: (Word, Flags)) {
    && m'.regs[dst] == spec.0 && m'.flags == spec.1
    && (forall r: Reg | r != dst && r != v :: m'.regs[r] == m.regs[r])
    && SameFrom(m.mem, m'.mem, m.regs[RSP])
  }

  lemma ShiftByRegCorrect(op: ShiftOp, dst: Reg, v: Reg, m: Machine, syms: Syms)
    requires OperandReg(dst, v) && m.regs[RSP] >= 8
    ensures var r, m' := ShiftResult(op, m.regs[dst], m.regs[v] % 64, m.flags), Run(ShiftByReg(op, dst, v), m, syms);
            && (m'.Some? <==> r.Some?)
            && (r.Some? ==>
                 Operated(m, m'.value, dst, v, (r.value, ShiftFlags(op, m.regs[dst], m.regs[v] % 64, m.flags))))
  {
    hide Load64, Store64, Run, ShiftResult, ShiftFlags;
    var save: Reg := if dst == RCX then RAX else RCX;
    var m1 := PushValue(m, m.regs[save]);
    Run1(Ins(Push(save)), m, syms);
    LoadStore64(m.mem, m.regs[RSP] - 8, m.regs[save]);
    if dst == RCX {
      var a, b, s, d := Move(RAX, RCX), Move(RCX, v), [Ins(ShiftCl(op, RAX))], Move(RCX, RAX);
      MoveCorrect(RAX, RCX, m1, syms);
      var m2 := m1.Set(RAX, m1.regs[RCX]);
      MoveCorrect(RCX, v, m2, syms);
      var m3 := m2.Set(RCX, m2.regs[v]);
      Run1(s[0], m3, syms);
      RunConcat([Ins(Push(save))], a, m, syms);
      RunConcat([Ins(Push(save))] + a, b, m, syms);
      RunConcat([Ins(Push(save))] + a + b, s, m, syms);
      if ShiftResult(op, m.regs[dst], m.regs[v] % 64, m.flags).Some? {
        var m4 := Step(s[0], m3, syms).value;
        MoveCorrect(RCX, RAX, m4, syms);
        var m5 := m4.Set(RCX, m4.regs[RAX]);
        PushPop(save, m, m5);
        Run1(Ins(Pop(RAX)), m5, syms);
        RunConcat([Ins(Push(save))] + a + b + s, d, m, syms);
      }
      RunConcat([Ins(Push(save))] + a + b + s, d, m, syms);
      RunConcat([Ins(Push(save))] + a + b + s + d, [Ins(Pop(RAX))], m, syms);
    } else {
      var b, s := Move(RCX, v), [Ins(ShiftCl(op, dst))];
      MoveCorrect(RCX, v, m1, syms);
      var m3 := m1.Set(RCX, m1.regs[v]);
      Run1(s[0], m3, syms);
      RunConcat([Ins(Push(save))], b, m, syms);
      RunConcat([Ins(Push(save))] + b, s, m, syms);
      if ShiftResult(op, m.regs[dst], m.regs[v] % 64, m.flags).Some? {
        var m4 := Step(s[0], m3, syms).value;
        PushPop(save, m, m4);
        Run1(Ins(Pop(RCX)), m4, syms);
      }
      RunConcat([Ins(Push(save))] + b + s, [Ins(Pop(RCX))], m, syms);
    }
  }

  /** Two pushes, and what the stack holds afterwards. */
  lemma PushTwo(a: Reg, b: Reg, m: Machine, syms: Syms) returns (m': Machine)
    requires a != RSP && b != RSP && m.regs[RSP] >= 16
    ensures Run([Ins(Push(a)), Ins(Push(b))], m, syms) == Some(m')
    ensures m'.regs == m.regs[RSP := m.regs[RSP] - 16] && m'.flags == m.flags
    ensures Load64(m'.mem, m.regs[RSP] - 8) == m.regs[a] && Load64(m'.mem, m.regs[RSP] - 16) == m.regs[b]
    ensures SameFrom(m.mem, m'.mem, m.regs[RSP])
  {
    hide Load64, Store64;
    Run2(Ins(Push(a)), Ins(Push(b)), m, syms);
    var m1 := PushValue(m, m.regs[a]);
    m' := PushValue(m1, m1.regs[b]);
    LoadStore64(m.mem, m.regs[RSP] - 8, m.regs[a]);
    LoadStore64(m1.mem, m.regs[RSP] - 16, m1.regs[b]);
    Load64Other(m1.mem, m.regs[RSP] - 16, m1.regs[b], m.regs[RSP] - 8);
  }

  lemma PopTwo(b: Reg, a: Reg, m: Machine, syms: Syms)
    requires a != RSP && b != RSP && a != b && m.regs[RSP] + 16 < TWO64
    ensures Run([Ins(Pop(b)), Ins(Pop(a))], m, syms) ==
            Some(m.(regs := m.regs[RSP := m.regs[RSP] + 16][b := Load64(m.mem, m.regs[RSP])]
                                  [a := Load64(m.mem, m.regs[RSP] + 8)]))
  {
    hide Load64;
    Run2(Ins(Pop(b)), Ins(Pop(a)), m, syms);
    var sp: int := m.regs[RSP];
    assert m.regs[RSP := sp + 8][b := Load64(m.mem, sp)][RSP := sp + 16][a := Load64(m.mem, sp + 8)] ==
           m.regs[RSP := sp + 16][b := Load64(m.mem, sp)][a := Load64(m.mem, sp + 8)];
  }

  /** The core of a division: dividend into rax, sign-extend, divide, result into the operand register. */
  lemma DivideCore(dst: Reg, v: Reg, result: Reg, m: Machine, syms: Syms)
    requires OperandReg(dst, v) && result in {RAX, RDX}
    ensures var core := (Move(RAX, dst) + [Ins(Cqo), Ins(Idiv(v))]) + Move(v, result);
            var qr, m' := SignedDivMod(m.regs[dst], m.regs[v]), Run(core, m, syms);
            && (m'.Some? <==> qr.Some?)
            && (qr.Some? ==>
                 && m'.value.regs[v] == (if result == RAX then qr.value.0 else qr.value.1)
                 && m'.value.mem == m.mem && m'.value.flags == UNDEFINED
                 && forall r: Reg | r != RAX && r != RDX && r != v :: m'.value.regs[r] == m.regs[r])
  {
    hide Run, Divide, SignedDivMod;
    var a, b := Move(RAX, dst), [Ins(Cqo), Ins(Idiv(v))];
    MoveCorrect(RAX, dst, m, syms);
    var m1 := m.Set(RAX, m.regs[dst]);
    Run2(Ins(Cqo), Ins(Idiv(v)), m1, syms);
    SignExtendedDividend(m.regs[dst], m.regs[v]);
    RunConcat(a, b, m, syms);
    RunConcat(a + b, Move(v, result), m, syms);
    if SignedDivMod(m.regs[dst], m.regs[v]).Some? {
      MoveCorrect(v, result, Run(a + b, m, syms).value, syms);
    }
  }

  lemma DivisionCorrect(dst: Reg, v: Reg, result: Reg, m: Machine, syms: Syms)
    requires OperandReg(dst, v) && result in {RAX, RDX} && m.regs[RSP] >= 16
    ensures var qr, m' := SignedDivMod(m.regs[dst], m.regs[v]), Run(Division(dst, v, result), m, syms);
            && (m'.Some? <==> qr.Some?)
            && (qr.Some? ==>
                 Operated(m, m'.value, dst, v, (if result == RAX then qr.value.0 else qr.value.1, UNDEFINED)))
  {
    hide Load64, Run, SignedDivMod;
    var push := [Ins(Push(RAX)), Ins(Push(RDX))];
    var a, b := Move(RAX, dst) + [Ins(Cqo), Ins(Idiv(v))], Move(v, result);
    var pop, last := [Ins(Pop(RDX)), Ins(Pop(RAX))], Move(dst, v);
    var m1 := PushTwo(RAX, RDX, m, syms);
    DivideCore(dst, v, result, m1, syms);
    RunConcat(push, a + b, m, syms);
    assert push + (a + b) == push + a + b;
    RunConcat(push + a + b, pop + last, m, syms);
    if SignedDivMod(m.regs[dst], m.regs[v]).Some? {
      var m2 := Run(a + b, m1, syms).value;
      PopTwo(RDX, RAX, m2, syms);
      RunConcat(pop, last, m2, syms);
      var m3 := Run(pop, m2, syms).value;
      MoveCorrect(dst, v, m3, syms);
    }
  }

  lemma CountMod64(v: int)
    ensures Wrap(v) % 64 == v % 64
  {
    assert v == (v / TWO64) * TWO64 + Wrap(v);
    assert v == ((v / TWO64) * 0x400_0000_0000_0000) * 64 + Wrap(v);
    DivModUnique(v, 64, (v / TWO64) * 0x400_0000_0000_0000 + Wrap(v) / 64, Wrap(v) % 64);
  }

  /** The emitted operation implements its specification, for every operation and destination. */
  lemma OperateCorrect(op: CpuOp, dst: Reg, v: Reg, value: Expr, m: Machine, syms: Syms)
    requires op != Set && OperandReg(dst, v) && m.regs[RSP] >= 16
    requires value.Num? ==> m.regs[v] == Wrap(value.value)
    ensures var spec, m' := OpSpec(op, m.regs[dst], m.regs[v], m.flags), Run(Operate(op, dst, v, value), m, syms);
            && (m'.Some? <==> spec.Some?)
            && (spec.Some? ==> Operated(m, m'.value, dst, v, spec.value))
  {
    hide Run, ShiftByReg, Division, SignedDivMod, ShiftResult, ShiftFlags, AluResult, AluFlags, MulFlags, MulResult;
    if IsAlu(op) {
      Run1(Ins(Alu(AluOf(op), dst, v)), m, syms);
    } else if op == MulOp {
      Run1(Ins(Imul(dst, v)), m, syms);
    } else if IsShift(op) {
      if value.Num? {
        Run1(Ins(ShiftImm(ShiftOf(op), dst, value.value % 64)), m, syms);
        CountMod64(value.value);
      } else {
        ShiftByRegCorrect(ShiftOf(op), dst, v, m, syms);
      }
    } else {
      DivisionCorrect(dst, v, if op == ModOp then RDX else RAX, m, syms);
    }
  }

  /** What a statement with a register destination leaves behind. */
  ghost predicate RegStatement(m: Machine, m': Machine, d: Reg, simple: bool, spec: (Word, Flags)) {
    && m'.regs[d] == spec.0 && m'.flags == spec.1
    && (forall r: Reg | r != d && r != R11 && r != R12 && r != R15 :: m'.regs[r] == m.regs[r])
    && (simple ==> forall r: Reg | r != d && r != R15 :: m'.regs[r] == m.regs[r])
    && SameFrom(m.mem, m'.mem, m.regs[RSP])
  }

  /** The old destination value the operation combines with: the evaluation may have replaced r12. */
  function OldSeen(d: Reg, value: Expr, c: Ctx, m: Machine, syms: Syms): Word {
    if d == R12 then R12After(value, m.regs[R12], c, m, syms) else m.regs[d]
  }

  /** A register destination and any operand: the statement applies its operation to what it sees, keeps
      every other user register (r12 too when the operand is simple), restores rsp and faults exactly when
      the operation does. */
  lemma CpuBinSees(op: CpuOp, dest: string, value: Expr, c: Ctx, m: Machine, syms: Syms)
    requires WellFormed(c) && dest !in c.locals && CpuBinCode(op, dest, value, c).Some?
    requires Readable(value, c, m, m.regs[RSP], syms) && 8 * Depth(value) + 16 <= m.regs[RSP]
    ensures var m', d := Run(CpuBinCode(op, dest, value, c).value, m, syms), Resolve(dest).value;
            var spec := OpSpec(op, OldSeen(d, value, c, m, syms), Seen(value, m.regs[R12], c, m, syms),
                               SeenFlags(value, m.regs[R12], c, m, syms));
            && (m'.Some? <==> spec.Some?)
            && (spec.Some? ==> RegStatement(m, m'.value, d, !Compound(value), spec.value))
  {
    hide Run, OpSpec, Operate, Readable, WellFormed, Depth, Resolve, ExprCode, Seen, SeenFlags, R12After, Value,
      RegStatement, Evaluated, Leftovers;
    var d := Resolve(dest).value;
    ResolveIsUser(dest);
    var via := if op == Set then d else SCRATCH;
    EvalSees(value, via, c, m, syms);
    var m1 := Run(ExprCode(value, via, c).value, m, syms).value;
    if op == Set {
      SetSpec(OldSeen(d, value, c, m, syms), m1.regs[d], m1.flags);
      SetStatement(d, value, c, m, m1, syms);
    } else {
      SeenNumber(value, c, m, syms);
      Operands(d, value, c, m, m1, syms);
      OperateCorrect(op, d, SCRATCH, value, m1, syms);
      RunConcat(ExprCode(value, SCRATCH, c).value, Operate(op, d, SCRATCH, value), m, syms);
      var r := Run(Operate(op, d, SCRATCH, value), m1, syms);
      if r.Some? {
        StatementIs(d, value, m, m1, r.value, (r.value.regs[d], r.value.flags));
      }
    }
  }

  lemma SetStatement(d: Reg, value: Expr, c: Ctx, m: Machine, m1: Machine, syms: Syms)
    requires Evaluated(value, d, Seen(value, m.regs[R12], c, m, syms), m, m1) && Leftovers(value, d, c, m, m1, syms)
    ensures RegStatement(m, m1, d, !Compound(value), (m1.regs[d], m1.flags))
    ensures m1.regs[d] == Seen(value, m.regs[R12], c, m, syms) && m1.flags == SeenFlags(value, m.regs[R12], c, m, syms)
  {
    hide Seen, SeenFlags, R12After;
  }

  /** What the operation finds after the evaluation into r15. */
  lemma Operands(d: Reg, value: Expr, c: Ctx, m: Machine, m1: Machine, syms: Syms)
    requires Evaluated(value, SCRATCH, Seen(value, m.regs[R12], c, m, syms), m, m1) &&
             Leftovers(value, SCRATCH, c, m, m1, syms)
    requires d != R11 && d != R15
    ensures m1.regs[R15] == Seen(value, m.regs[R12], c, m, syms) &&
            m1.flags == SeenFlags(value, m.regs[R12], c, m, syms)
    ensures m1.regs[d] == OldSeen(d, value, c, m, syms) && m1.regs[RSP] == m.regs[RSP]
  {
    hide Seen, SeenFlags, R12After;
  }

  lemma StatementIs(d: Reg, value: Expr, m: Machine, m1: Machine, m': Machine, spec: (Word, Flags))
    requires Evaluated(value, SCRATCH, m1.regs[SCRATCH], m, m1) && Operated(m1, m', d, SCRATCH, spec) &&
             m1.regs[RSP] == m.regs[RSP]
    ensures RegStatement(m, m', d, !Compound(value), spec)
  {
  }

  lemma SeenNumber(value: Expr, c: Ctx, m: Machine, syms: Syms)
    ensures value.Num? ==> Seen(value, m.regs[R12], c, m, syms) == Wrap(value.value)
  {
  }

  lemma SimpleR12(value: Expr, c: Ctx, m: Machine, syms: Syms)
    requires !Compound(value)
    ensures R12After(value, m.regs[R12], c, m, syms) == m.regs[R12]
  {
  }

  /** So with an operand that reads r12 in time, and a destination the evaluation does not replace, the
      result is that of the operation on the values before the statement. */
  lemma CpuBinRegister(op: CpuOp, dest: string, value: Expr, c: Ctx, m: Machine, syms: Syms)
    requires WellFormed(c) && dest !in c.locals && CpuBinCode(op, dest, value, c).Some?
    requires R12Intact(value) && Readable(value, c, m, m.regs[RSP], syms)
    requires 8 * Depth(value) + 16 <= m.regs[RSP]
    requires Compound(value) && op != Set ==> Resolve(dest) != Some(R12)
    ensures var m', d := Run(CpuBinCode(op, dest, value, c).value, m, syms), Resolve(dest).value;
            var spec := OpSpec(op, m.regs[d], Wrap(Value(value, c, m, syms)),
              SeenFlags(value, m.regs[R12], c, m, syms));
            && (m'.Some? <==> spec.Some?)
            && (spec.Some? ==> RegStatement(m, m'.value, d, !Compound(value), spec.value))
  {
    hide Run, OpSpec, Readable, R12Intact, ExprCode, Resolve, Seen, SeenFlags, Value, R12After, RegStatement, Operate;
    CpuBinSees(op, dest, value, c, m, syms);
    SeenIsValue(value, m.regs[R12], c, m, syms);
    if op == Set {
      SetSpec(m.regs[Resolve(dest).value], Wrap(Value(value, c, m, syms)), SeenFlags(value, m.regs[R12], c, m, syms));
      SetSpec(OldSeen(Resolve(dest).value, value, c, m, syms), Wrap(Value(value, c, m, syms)),
        SeenFlags(value, m.regs[R12], c, m, syms));
    } else if !Compound(value) {
      SimpleR12(value, c, m, syms);
    }
  }

  // ---- compound operands and r12 as the destination ----

  /** Same fault, same result; flags aside. */
  predicate SameResult(a: Option<(Word, Flags)>, b: Option<(Word, Flags)>) {
    (a.Some? <==> b.Some?) && (a.Some? ==> a.value.0 == b.value.0)
  }

  /** When an operation with operand v gives the same for the old values a and b. */
  predicate Alike(op: CpuOp, a: Word, b: Word, v: Word, f: Flags) {
    match op
    case Set => true
    case AddOp | SubOp | XorOp => a == b
    case AndOp => Logic(BitAnd, a, v) == Logic(BitAnd, b, v)
    case OrOp => Logic(BitOr, a, v) == Logic(BitOr, b, v)
    case MulOp => Wrap(a * v) == Wrap(b * v)
    case DivOp | ModOp =>
      v == 0 ||
      (var x, y := TruncDiv(Signed(a), Signed(v)), TruncDiv(Signed(b), Signed(v));
       if FitsSigned64(x) && FitsSigned64(y) then
         (if op == DivOp then x == y else TruncMod(Signed(a), Signed(v)) == TruncMod(Signed(b), Signed(v)))
       else FitsSigned64(x) == FitsSigned64(y))
    case ShlOp | ShrOp | SarOp | SalOp | RolOp | RorOp | RclOp | RcrOp =>
      ShiftResult(ShiftOf(op), a, v % 64, f) == ShiftResult(ShiftOf(op), b, v % 64, f)
  }

  lemma AlikeAlu(op: CpuOp, a: Word, b: Word, v: Word)
    requires IsAlu(op)
    ensures AluResult(AluOf(op), a, v) == AluResult(AluOf(op), b, v) <==> Alike(op, a, b, v, UNDEFINED)
  {
    hide Bitwise;
    if op == AddOp {
      SameResidue(a + v, b + v);
    } else if op == SubOp {
      SameResidue(a - v, b - v);
    } else if op == XorOp {
      XorCancel(a, b, v);
    }
  }

  lemma AlikeDivision(op: CpuOp, a: Word, b: Word, v: Word, f: Flags)
    requires op == DivOp || op == ModOp
    ensures SameResult(OpSpec(op, a, v, f), OpSpec(op, b, v, f)) <==> Alike(op, a, b, v, f)
  {
    hide TruncDiv, TruncMod;
    if v != 0 {
      SmallRemainder(Signed(a), Signed(v));
      SmallRemainder(Signed(b), Signed(v));
      if FitsSigned64(TruncDiv(Signed(a), Signed(v))) && FitsSigned64(TruncDiv(Signed(b), Signed(v))) {
        SameResidue(TruncDiv(Signed(a), Signed(v)), TruncDiv(Signed(b), Signed(v)));
      }
      SameResidue(TruncMod(Signed(a), Signed(v)), TruncMod(Signed(b), Signed(v)));
    }
  }

  lemma SmallRemainder(a: int, d: int)
    requires d != 0 && FitsSigned64(d)
    ensures -TWO63 <= TruncMod(a, d) < TWO63
  {
    hide TruncDiv, TruncMod;
    TruncDivMod(a, d);
  }

  lemma AlikeIff(op: CpuOp, a: Word, b: Word, v: Word, f: Flags)
    ensures SameResult(OpSpec(op, a, v, f), OpSpec(op, b, v, f)) <==> Alike(op, a, b, v, f)
  {
    if op == Set {
    } else if IsAlu(op) {
      hide AluResult, AluFlags, Logic;
      AlikeAlu(op, a, b, v);
    } else if op == MulOp {
      hide MulFlags;
    } else if op == DivOp || op == ModOp {
      AlikeDivision(op, a, b, v, f);
    } else {
      hide ShiftResult, ShiftFlags;
    }
  }

  /** A register destination and any operand, exactly: result and fault are those of the operation on the register's
      old value if and only if the destination is not r12, or the statement is a `set`, or the operand is simple, or
      the operation cannot tell the operand's right value, which the evaluation leaves in r12, from the old r12.
      The operand is the one the code sees, which is its value when r12 is read in time. */
  lemma RegisterRightIff(op: CpuOp, dest: string, value: Expr, c: Ctx, m: Machine, syms: Syms)
    requires WellFormed(c) && dest !in c.locals && CpuBinCode(op, dest, value, c).Some?
    requires Readable(value, c, m, m.regs[RSP], syms) && 8 * Depth(value) + 16 <= m.regs[RSP]
    ensures var m', d := Run(CpuBinCode(op, dest, value, c).value, m, syms), Resolve(dest).value;
            var v, f := Seen(value, m.regs[R12], c, m, syms), SeenFlags(value, m.regs[R12], c, m, syms);
            var want := OpSpec(op, m.regs[d], v, f);
            && (R12Intact(value) ==> v == Wrap(Value(value, c, m, syms)))
            && ((m'.Some? <==> want.Some?) && (m'.Some? ==> m'.value.regs[d] == want.value.0) <==>
                d != R12 || op == Set || !Compound(value) ||
                Alike(op, R12After(value, m.regs[R12], c, m, syms), m.regs[R12], v, f))
  {
    var d := Resolve(dest).value;
    hide Run, OpSpec, Readable, R12Intact, ExprCode, CpuBinCode, Resolve, Seen, SeenFlags, Value, R12After, Operate,
      Alike;
    var v, f := Seen(value, m.regs[R12], c, m, syms), SeenFlags(value, m.regs[R12], c, m, syms);
    CpuBinSees(op, dest, value, c, m, syms);
    if R12Intact(value) { SeenIsValue(value, m.regs[R12], c, m, syms); }
    if op == Set {
      SetSpec(m.regs[d], v, f);
      SetSpec(OldSeen(d, value, c, m, syms), v, f);
    } else {
      if !Compound(value) { SimpleR12(value, c, m, syms); }
      AlikeIff(op, OldSeen(d, value, c, m, syms), m.regs[d], v, f);
    }
  }

  lemma NamesOfLost()
    ensures Resolve("reg10") == Some(R12) && Resolve("reg1") == Some(RAX)
  {
    VirtualResolves("reg10");
    VirtualResolves("reg1");
  }

  lemma LostCode(c: Ctx)
    requires "reg10" !in c.locals
    ensures CpuBinCode(AddOp, "reg10", Bin(Plus, RegName("reg1"), Num(8)), c).Some?
  {
    hide Resolve;
    NamesOfLost();
    var l, r: Expr := RegName("reg1"), Num(8);
    assert ExprCode(l, R11, c).Some? && ExprCode(r, R12, c).Some?;
    assert ExprCode(Bin(Plus, l, r), SCRATCH, c).Some?;
  }

  lemma LostValues(c: Ctx, m: Machine, syms: Syms)
    requires m.regs[RAX] == 0
    ensures var value := Bin(Plus, RegName("reg1"), Num(8));
            && Value(value, c, m, syms) == 8 && R12Intact(value) && Depth(value) == 1
            && Readable(value, c, m, m.regs[RSP], syms)
            && Seen(value, m.regs[R12], c, m, syms) == 8 && R12After(value, m.regs[R12], c, m, syms) == 8
  {
    hide Resolve;
    NamesOfLost();
    var l, r: Expr := RegName("reg1"), Num(8);
    assert Value(l, c, m, syms) == 0 && Value(r, c, m, syms) == 8 && Depth(l) == Depth(r) == 0;
    assert Seen(l, m.regs[R12], c, m, syms) == 0 && Seen(r, m.regs[R12], c, m, syms) == 8;
  }

  lemma AddSpec(a: Word, v: Word, f: Flags)
    ensures OpSpec(AddOp, a, v, f).Some? && OpSpec(AddOp, a, v, f).value.0 == Wrap(a + v)
  {
    hide AluFlags;
  }

  /** `cpu:add reg10, reg1 + 8` with 1 in reg10 and 0 in reg1: 9 is meant, but the evaluation has put 8 into reg10. */
  lemma RegisterLost(c: Ctx, m: Machine, syms: Syms)
    requires WellFormed(c) && "reg10" !in c.locals && m.regs[R12] == 1 && m.regs[RAX] == 0 && m.regs[RSP] >= 24
    ensures var value := Bin(Plus, RegName("reg1"), Num(8));
            && CpuBinCode(AddOp, "reg10", value, c).Some? && Value(value, c, m, syms) == 8 && R12Intact(value)
            && Run(CpuBinCode(AddOp, "reg10", value, c).value, m, syms).Some?
            && Run(CpuBinCode(AddOp, "reg10", value, c).value, m, syms).value.regs[R12] == 16
  {
    hide Run, CpuBinCode, OpSpec, Resolve, Value, Seen, R12After, R12Intact, Readable, Depth, WellFormed;
    var value := Bin(Plus, RegName("reg1"), Num(8));
    NamesOfLost();
    LostCode(c);
    LostValues(c, m, syms);
    CpuBinSees(AddOp, "reg10", value, c, m, syms);
    AddSpec(8, 8, SeenFlags(value, m.regs[R12], c, m, syms));
  }

  // ---- local destinations ----

  /** What a statement with a local destination leaves behind: its slot, r11, r12 and flags change. */
  ghost predicate LocalStatement(m: Machine, m': Machine, a: int, spec: (Word, Flags)) {
    && Load64(m'.mem, a) == spec.0 && m'.flags == spec.1
    && (forall r: Reg | r != R11 && r != R12 :: m'.regs[r] == m.regs[r])
    && (forall x | x >= m.regs[RSP] && !(a <= x < a + 8) :: Rd(m'.mem, x) == Rd(m.mem, x))
  }

  lemma StoreSlotCorrect(off: int, s: Reg, m: Machine, syms: Syms) returns (m': Machine)
    requires StoreSlot(off, s).Some?
    ensures Run(StoreSlot(off, s).value, m, syms) == Some(m')
    ensures m'.regs == m.regs && m'.flags == m.flags
    ensures var a := Wrap(m.regs[RBP] + off); Load64(m'.mem, a) == m.regs[s] && SameOutside(m.mem, m'.mem, a, a + 8)
  {
    var a := Wrap(m.regs[RBP] + off);
    Run1(Ins(StoreI(W64, Slot(off), s)), m, syms);
    LoadStore64(m.mem, a, m.regs[s]);
    m' := m.(mem := Store64(m.mem, a, m.regs[s]));
  }

  /** From the loaded slot and evaluated operand to the stored result. */
  lemma LocalChain(op: CpuOp, off: int, value: Expr, before: seq<Item>, m: Machine, m2: Machine, syms: Syms)
    requires op != Set && StoreSlot(off, R11).Some? && Run(before, m, syms) == Some(m2)
    requires m2.regs[RSP] == m.regs[RSP] >= 16 && Wrap(m.regs[RBP] + off) >= m.regs[RSP]
    requires forall r: Reg | r != R11 && r != R12 :: m2.regs[r] == m.regs[r]
    requires SameFrom(m.mem, m2.mem, m.regs[RSP])
    requires value.Num? ==> m2.regs[R12] == Wrap(value.value)
    ensures var m' := Run(before + Operate(op, R11, R12, value) + StoreSlot(off, R11).value, m, syms);
            var spec := OpSpec(op, m2.regs[R11], m2.regs[R12], m2.flags);
            && (m'.Some? <==> spec.Some?)
            && (spec.Some? ==> LocalStatement(m, m'.value, Wrap(m.regs[RBP] + off), spec.value))
  {
    hide Run, OpSpec, Load64, StoreSlot, Operate;
    OperateCorrect(op, R11, R12, value, m2, syms);
    RunConcat(before, Operate(op, R11, R12, value), m, syms);
    RunConcat(before + Operate(op, R11, R12, value), StoreSlot(off, R11).value, m, syms);
    if Run(Operate(op, R11, R12, value), m2, syms).Some? {
      var m4 := StoreSlotCorrect(off, R11, Run(Operate(op, R11, R12, value), m2, syms).value, syms);
    }
  }

  lemma SetLocal(dest: string, value: Expr, c: Ctx, m: Machine, syms: Syms)
    requires WellFormed(c) && dest in c.locals && CpuBinCode(Set, dest, value, c).Some?
    requires Readable(value, c, m, m.regs[RSP], syms)
    requires 8 * Depth(value) + 16 <= m.regs[RSP] <= Wrap(m.regs[RBP] + c.locals[dest])
    ensures var m', a := Run(CpuBinCode(Set, dest, value, c).value, m, syms), Wrap(m.regs[RBP] + c.locals[dest]);
            var x := m.regs[R12];
            && m'.Some? && LocalStatement(m, m'.value, a, (Seen(value, x, c, m, syms), SeenFlags(value, x, c, m, syms)))
            && (!Compound(value) ==> m'.value.regs[R12] == x)
  {
    hide Run, Load64, StoreSlot, Seen, SeenFlags;
    EvalSees(value, R11, c, m, syms);
    var m1 := Run(ExprCode(value, R11, c).value, m, syms).value;
    var m2 := StoreSlotCorrect(c.locals[dest], R11, m1, syms);
    RunConcat(ExprCode(value, R11, c).value, StoreSlot(c.locals[dest], R11).value, m, syms);
  }

  lemma SeenFlagsSame(e: Expr, x: Word, c: Ctx, m: Machine, m': Machine, lo: int, syms: Syms)
    requires WellFormed(c) && Readable(e, c, m, lo, syms) && AgreeUser(m, m', lo) && m.flags == m'.flags
    ensures SeenFlags(e, x, c, m', syms) == SeenFlags(e, x, c, m, syms)
  {
    hide CombineFlags, Value;
    SeenSame(e, x, c, m, m', lo, syms);
    if e.Bin? {
      SeenSame(e.left, x, c, m, m', lo, syms);
    }
  }

  /** The code up to the operation: the operand in r12, and in r11 the old value if the operand left it there. */
  lemma LocalOperands(op: CpuOp, dest: string, value: Expr, c: Ctx, m: Machine, syms: Syms) returns (m2: Machine)
    requires WellFormed(c) && dest in c.locals && op != Set && CpuBinCode(op, dest, value, c).Some?
    requires Readable(value, c, m, m.regs[RSP], syms) && 8 * Depth(value) <= m.regs[RSP]
    ensures Run(LoadSlot(R11, c.locals[dest]).value + ExprCode(value, R12, c).value, m, syms) == Some(m2)
    ensures m2.regs[R12] == Seen(value, m.regs[R12], c, m, syms) &&
            m2.flags == SeenFlags(value, m.regs[R12], c, m, syms)
    ensures m2.regs[R11] == if Compound(value) then m2.regs[R12] else Load64(m.mem, Wrap(m.regs[RBP] + c.locals[dest]))
    ensures forall r: Reg | r != R11 && r != R12 :: m2.regs[r] == m.regs[r]
    ensures SameFrom(m.mem, m2.mem, m.regs[RSP])
  {
    hide Run, Load64, LoadSlot, Seen, SeenFlags;
    var load, ev := LoadSlot(R11, c.locals[dest]).value, ExprCode(value, R12, c).value;
    LoadSlotCorrect(R11, c.locals[dest], m, syms);
    var m1 := m.Set(R11, Load64(m.mem, Wrap(m.regs[RBP] + c.locals[dest])));
    SeenSame(value, m.regs[R12], c, m, m1, m.regs[RSP], syms);
    SeenFlagsSame(value, m.regs[R12], c, m, m1, m.regs[RSP], syms);
    EvalSees(value, R12, c, m1, syms);
    m2 := Run(ev, m1, syms).value;
    RunConcat(load, ev, m, syms);
  }

  /** The value of the local the operation combines with: a compound operand has replaced it by itself. */
  function OldLocal(op: CpuOp, value: Expr, a: Word, c: Ctx, m: Machine, syms: Syms): Word {
    if op != Set && Compound(value) then Seen(value, m.regs[R12], c, m, syms) else Load64(m.mem, a)
  }

  /** A local destination and any operand: the slot gets the operation of what the code sees, it faults
      exactly when the operation does, and only the slot, r11, r12 and flags change. */
  lemma CpuBinLocalSees(op: CpuOp, dest: string, value: Expr, c: Ctx, m: Machine, syms: Syms)
    requires WellFormed(c) && dest in c.locals && CpuBinCode(op, dest, value, c).Some?
    requires Readable(value, c, m, m.regs[RSP], syms)
    requires 8 * Depth(value) + 16 <= m.regs[RSP] <= Wrap(m.regs[RBP] + c.locals[dest])
    ensures var m', a := Run(CpuBinCode(op, dest, value, c).value, m, syms), Wrap(m.regs[RBP] + c.locals[dest]);
            var spec := OpSpec(op, OldLocal(op, value, a, c, m, syms), Seen(value, m.regs[R12], c, m, syms),
                               SeenFlags(value, m.regs[R12], c, m, syms));
            && (m'.Some? <==> spec.Some?)
            && (spec.Some? ==> LocalStatement(m, m'.value, a, spec.value))
            && (op == Set && !Compound(value) ==> m'.Some? && m'.value.regs[R12] == m.regs[R12])
  {
    hide Run, OpSpec, Load64, LoadSlot, StoreSlot, Operate, LocalStatement, Seen, SeenFlags;
    if op == Set {
      SetLocal(dest, value, c, m, syms);
      SetSpec(Load64(m.mem, Wrap(m.regs[RBP] + c.locals[dest])), Seen(value, m.regs[R12], c, m, syms),
              SeenFlags(value, m.regs[R12], c, m, syms));
    } else {
      var m2 := LocalOperands(op, dest, value, c, m, syms);
      SeenNumber(value, c, m, syms);
      LocalChain(op, c.locals[dest], value, LoadSlot(R11, c.locals[dest]).value + ExprCode(value, R12, c).value,
                 m, m2, syms);
    }
  }

  /** A local destination with a simple operand, or `set` with any operand in time: the slot gets the result,
      and only the slot, r11, r12 and flags change. */
  lemma CpuBinLocal(op: CpuOp, dest: string, value: Expr, c: Ctx, m: Machine, syms: Syms)
    requires WellFormed(c) && dest in c.locals && CpuBinCode(op, dest, value, c).Some?
    requires op == Set || !Compound(value)
    requires R12Intact(value) && Readable(value, c, m, m.regs[RSP], syms)
    requires 8 * Depth(value) + 16 <= m.regs[RSP] <= Wrap(m.regs[RBP] + c.locals[dest])
    ensures var m', a := Run(CpuBinCode(op, dest, value, c).value, m, syms), Wrap(m.regs[RBP] + c.locals[dest]);
            var spec := OpSpec(op, Load64(m.mem, a), Wrap(Value(value, c, m, syms)),
              SeenFlags(value, m.regs[R12], c, m, syms));
            && (m'.Some? <==> spec.Some?)
            && (spec.Some? ==> LocalStatement(m, m'.value, a, spec.value))
            && (op == Set && !Compound(value) ==> m'.Some? && m'.value.regs[R12] == m.regs[R12])
  {
    hide Run, OpSpec, Load64, CpuBinCode, Seen, SeenFlags, Value, LocalStatement, Readable, R12Intact;
    CpuBinLocalSees(op, dest, value, c, m, syms);
    SeenIsValue(value, m.regs[R12], c, m, syms);
  }

  // ---- compound operands and local destinations ----

  /** When combining the operand with itself gives what combining it with `was` would. */
  predicate Indifferent(op: CpuOp, was: Word, v: Word, f: Flags) {
    match op
    case Set => true
    case AddOp | SubOp | XorOp => was == v
    case AndOp => Logic(BitAnd, was, v) == v
    case OrOp => Logic(BitOr, was, v) == v
    case MulOp => Wrap(was * v) == Wrap(v * v)
    case DivOp => v == 0 || TruncDiv(Signed(was), Signed(v)) == 1
    case ModOp => v == 0 || (FitsSigned64(TruncDiv(Signed(was), Signed(v))) && TruncMod(Signed(was), Signed(v)) == 0)
    case ShlOp | ShrOp | SarOp | SalOp | RolOp | RorOp | RclOp | RcrOp =>
      ShiftResult(ShiftOf(op), was, v % 64, f) == ShiftResult(ShiftOf(op), v, v % 64, f)
  }

  lemma IndifferentAlu(op: CpuOp, was: Word, v: Word)
    requires IsAlu(op)
    ensures AluResult(AluOf(op), was, v) == AluResult(AluOf(op), v, v) <==> Indifferent(op, was, v, UNDEFINED)
  {
    hide Bitwise;
    if op == AddOp {
      SameResidue(was + v, v + v);
    } else if op == SubOp {
      SameResidue(was - v, v - v);
    } else if op == AndOp {
      AndSelf(v);
    } else if op == OrOp {
      OrSelf(v);
    } else {
      XorSelf(v);
      XorZeroIff(was, v);
    }
  }

  lemma SelfDivision(v: int)
    requires v != 0
    ensures TruncDiv(v, v) == 1 && TruncMod(v, v) == 0
  {
  }

  lemma IndifferentDivision(op: CpuOp, was: Word, v: Word, f: Flags)
    requires op == DivOp || op == ModOp
    ensures SameResult(OpSpec(op, v, v, f), OpSpec(op, was, v, f)) <==> Indifferent(op, was, v, f)
  {
    hide TruncDiv, TruncMod;
    if v != 0 {
      SelfDivision(Signed(v));
      var q, r := TruncDiv(Signed(was), Signed(v)), TruncMod(Signed(was), Signed(v));
      SmallRemainder(Signed(was), Signed(v));
      if FitsSigned64(q) { SameResidue(q, 1); }
      SameResidue(r, 0);
    }
  }

  lemma IndifferentIff(op: CpuOp, was: Word, v: Word, f: Flags)
    ensures SameResult(OpSpec(op, v, v, f), OpSpec(op, was, v, f)) <==> Indifferent(op, was, v, f)
  {
    if op == Set {
    } else if IsAlu(op) {
      hide AluResult, AluFlags, Logic;
      IndifferentAlu(op, was, v);
    } else if op == MulOp {
      hide MulFlags;
    } else if op == DivOp || op == ModOp {
      IndifferentDivision(op, was, v, f);
    } else {
      hide ShiftResult, ShiftFlags;
    }
  }

  /** A local destination with a compound operand loses its old value: the evaluation leaves the operand in
      r11 as well, so the operation combines the operand with itself. The statement is right all the same,
      result and fault, exactly when the operation cannot tell the operand from the old value. The operand is the
      one the code sees, which is its value when r12 is read in time. */
  lemma CompoundLocalRightIff(op: CpuOp, dest: string, value: Expr, c: Ctx, m: Machine, syms: Syms)
    requires WellFormed(c) && dest in c.locals && CpuBinCode(op, dest, value, c).Some?
    requires op != Set && Compound(value) && Readable(value, c, m, m.regs[RSP], syms)
    requires 8 * Depth(value) + 16 <= m.regs[RSP] <= Wrap(m.regs[RBP] + c.locals[dest])
    ensures var m', a := Run(CpuBinCode(op, dest, value, c).value, m, syms), Wrap(m.regs[RBP] + c.locals[dest]);
            var v, f := Seen(value, m.regs[R12], c, m, syms), SeenFlags(value, m.regs[R12], c, m, syms);
            var was := Load64(m.mem, a);
            var got, want := OpSpec(op, v, v, f), OpSpec(op, was, v, f);
            && (R12Intact(value) ==> v == Wrap(Value(value, c, m, syms)))
            && (m'.Some? <==> got.Some?) && (got.Some? ==> LocalStatement(m, m'.value, a, got.value))
            && ((m'.Some? <==> want.Some?) && (m'.Some? ==> Load64(m'.value.mem, a) == want.value.0) <==>
                Indifferent(op, was, v, f))
  {
    hide Run, OpSpec, Load64, CpuBinCode, Seen, SeenFlags, Value, Readable, R12Intact, Indifferent;
    CpuBinLocalSees(op, dest, value, c, m, syms);
    if R12Intact(value) { SeenIsValue(value, m.regs[R12], c, m, syms); }
    IndifferentIff(op, Load64(m.mem, Wrap(m.regs[RBP] + c.locals[dest])), Seen(value, m.regs[R12], c, m, syms),
                   SeenFlags(value, m.regs[R12], c, m, syms));
  }

  // ---- cmp ----

  /** Left operand into r15, above the saved r11. */
  lemma CmpLeftValue(l: Expr, c: Ctx, m: Machine, syms: Syms) returns (m2: Machine)
    requires WellFormed(c) && ExprCode(l, SCRATCH, c).Some?
    requires Readable(l, c, m, m.regs[RSP], syms) && 8 * Depth(l) + 16 <= m.regs[RSP]
    ensures Run([Ins(Push(R11))] + ExprCode(l, SCRATCH, c).value, m, syms) == Some(m2)
    ensures m2.regs[RSP] == m.regs[RSP] - 8 && AgreeUser(m, m2, m.regs[RSP])
    ensures Load64(m2.mem, m.regs[RSP] - 8) == m.regs[R11] && m2.regs[R15] == Seen(l, m.regs[R12], c, m, syms)
    ensures m2.regs[R12] == R12After(l, m.regs[R12], c, m, syms)
  {
    hide Run, Load64, Store64, ExprCode, Seen, SeenFlags, R12After;
    var save, ev := [Ins(Push(R11))], ExprCode(l, SCRATCH, c).value;
    var m1 := PushValue(m, m.regs[R11]);
    Run1(save[0], m, syms);
    LoadStore64(m.mem, m.regs[RSP] - 8, m.regs[R11]);
    SeenSame(l, m.regs[R12], c, m, m1, m.regs[RSP], syms);
    WeakenReadable(l, c, m1, m.regs[RSP], m1.regs[RSP], syms);
    EvalSees(l, SCRATCH, c, m1, syms);
    m2 := Run(ev, m1, syms).value;
    Load64Same(m1.mem, m2.mem, m.regs[RSP] - 8);
    RunConcat(save, ev, m, syms);
  }

  /** Left operand on through r11 onto the stack. */
  lemma CmpLeft(l: Expr, c: Ctx, m: Machine, syms: Syms) returns (m4: Machine)
    requires WellFormed(c) && ExprCode(l, SCRATCH, c).Some?
    requires Readable(l, c, m, m.regs[RSP], syms) && 8 * Depth(l) + 16 <= m.regs[RSP]
    ensures Run([Ins(Push(R11))] + ExprCode(l, SCRATCH, c).value + (Move(R11, SCRATCH) + [Ins(Push(R11))]), m,
            syms) == Some(m4)
    ensures m4.regs[RSP] == m.regs[RSP] - 16 && AgreeUser(m, m4, m.regs[RSP])
    ensures Load64(m4.mem, m.regs[RSP] - 8) == m.regs[R11]
    ensures Load64(m4.mem, m.regs[RSP] - 16) == Seen(l, m.regs[R12], c, m, syms)
    ensures m4.regs[R12] == R12After(l, m.regs[R12], c, m, syms)
  {
    hide Run, Load64, Store64, ExprCode, Readable, Seen, R12After;
    var head, park := [Ins(Push(R11))] + ExprCode(l, SCRATCH, c).value, [Ins(MovRR(R11, R15)), Ins(Push(R11))];
    var m2 := CmpLeftValue(l, c, m, syms);
    Run2(park[0], park[1], m2, syms);
    var m3 := m2.Set(R11, m2.regs[R15]);
    m4 := PushValue(m3, m3.regs[R11]);
    LoadStore64(m3.mem, m.regs[RSP] - 16, m3.regs[R11]);
    Load64Other(m3.mem, m.regs[RSP] - 16, m3.regs[R11], m.regs[RSP] - 8);
    assert Move(R11, SCRATCH) + [Ins(Push(R11))] == park;
    RunConcat(head, park, m, syms);
  }

  lemma CmpTail(lv: Word, saved: Word, m: Machine, syms: Syms) returns (m': Machine)
    requires m.regs[RSP] + 16 < TWO64
    requires Load64(m.mem, m.regs[RSP]) == lv && Load64(m.mem, m.regs[RSP] + 8) == saved
    ensures Run([Ins(Pop(R11)), Ins(Alu(CMP, R11, SCRATCH)), Ins(Pop(R11))], m, syms) == Some(m')
    ensures m'.regs == m.regs[RSP := m.regs[RSP] + 16][R11 := saved] && m'.mem == m.mem
    ensures m'.flags == AluFlags(CMP, lv, m.regs[R15])
  {
    hide Load64, AluFlags, Run;
    var a, b := [Ins(Pop(R11)), Ins(Alu(CMP, R11, SCRATCH))], [Ins(Pop(R11))];
    Run2(a[0], a[1], m, syms);
    var m1 := Run(a, m, syms).value;
    Run1(b[0], m1, syms);
    RunConcat(a, b, m, syms);
    assert a + b == [Ins(Pop(R11)), Ins(Alu(CMP, R11, SCRATCH)), Ins(Pop(R11))];
    m' := Run(b, m1, syms).value;
    assert m'.regs == m.regs[RSP := m.regs[RSP] + 16][R11 := saved];
  }

  /** `cmp` of any operands sets the flags of what it sees, the right operand after the left one, and keeps
      every register but r12 and r15; rsp is balanced. */
  lemma CmpSees(l: Expr, r: Expr, c: Ctx, m: Machine, syms: Syms) returns (m': Machine)
    requires WellFormed(c) && CmpCode(l, r, c).Some?
    requires Readable(l, c, m, m.regs[RSP], syms) && Readable(r, c, m, m.regs[RSP], syms)
    requires 8 * Depth(l) + 16 <= m.regs[RSP] && 8 * Depth(r) + 16 <= m.regs[RSP]
    ensures Run(CmpCode(l, r, c).value, m, syms) == Some(m')
    ensures var x := R12After(l, m.regs[R12], c, m, syms);
            && m'.flags == AluFlags(CMP, Seen(l, m.regs[R12], c, m, syms), Seen(r, x, c, m, syms))
            && m'.regs[R12] == R12After(r, x, c, m, syms)
    ensures forall q: Reg | q != R12 && q != R15 :: m'.regs[q] == m.regs[q]
    ensures SameFrom(m.mem, m'.mem, m.regs[RSP])
  {
    hide Run, Load64, Store64, AluFlags, Seen, SeenFlags, R12After, Readable, ExprCode, Depth, WellFormed, Leftovers;
    var lc, rc := ExprCode(l, SCRATCH, c).value, ExprCode(r, SCRATCH, c).value;
    var save, park := [Ins(Push(R11))], Move(R11, SCRATCH) + [Ins(Push(R11))];
    var tail := [Ins(Pop(R11)), Ins(Alu(CMP, R11, SCRATCH)), Ins(Pop(R11))];
    var m4 := CmpLeft(l, c, m, syms);
    SeenSame(r, m4.regs[R12], c, m, m4, m.regs[RSP], syms);
    WeakenReadable(r, c, m4, m.regs[RSP], m4.regs[RSP], syms);
    EvalSees(r, SCRATCH, c, m4, syms);
    var m5 := Run(rc, m4, syms).value;
    Load64Same(m4.mem, m5.mem, m.regs[RSP] - 8);
    Load64Same(m4.mem, m5.mem, m.regs[RSP] - 16);
    m' := CmpTail(Seen(l, m.regs[R12], c, m, syms), m.regs[R11], m5, syms);
    assert CmpCode(l, r, c).value == save + lc + (park + rc) + tail;
    assert save + lc + (park + rc) == save + lc + park + rc;
    RunConcat(save + lc + park, rc, m, syms);
    RunConcat(save + lc + park + rc, tail, m, syms);
  }

  /** So operands that read r12 in time are compared by their values, and simple ones keep r12 too. */
  lemma CmpCorrect(l: Expr, r: Expr, c: Ctx, m: Machine, syms: Syms) returns (m': Machine)
    requires WellFormed(c) && CmpCode(l, r, c).Some? && R12Intact(l) && R12Intact(r)
    requires Compound(l) ==> !ReadsR12(r)
    requires Readable(l, c, m, m.regs[RSP], syms) && Readable(r, c, m, m.regs[RSP], syms)
    requires 8 * Depth(l) + 16 <= m.regs[RSP] && 8 * Depth(r) + 16 <= m.regs[RSP]
    ensures Run(CmpCode(l, r, c).value, m, syms) == Some(m')
    ensures m'.flags == AluFlags(CMP, Wrap(Value(l, c, m, syms)), Wrap(Value(r, c, m, syms)))
    ensures forall q: Reg | q != R12 && q != R15 :: m'.regs[q] == m.regs[q]
    ensures !Compound(l) && !Compound(r) ==> m'.regs[R12] == m.regs[R12]
    ensures SameFrom(m.mem, m'.mem, m.regs[RSP])
  {
    hide Run, AluFlags, Seen, R12After, Value, Readable, R12Intact, CmpCode;
    m' := CmpSees(l, r, c, m, syms);
    SeenIsValue(l, m.regs[R12], c, m, syms);
    SeenIsValue(r, R12After(l, m.regs[R12], c, m, syms), c, m, syms);
  }

  /** `not`, `neg`, `inc` and `dec` of a local: its slot, r11 and flags change. */
  lemma CpuUnaryLocal(op: CpuUnaryOp, dest: string, c: Ctx, m: Machine, syms: Syms) returns (m': Machine)
    requires dest in c.locals && CpuUnaryCode(op, dest, c).Some?
    ensures Run(CpuUnaryCode(op, dest, c).value, m, syms) == Some(m')
    ensures var a := Wrap(m.regs[RBP] + c.locals[dest]);
            var was := Load64(m.mem, a);
            && Load64(m'.mem, a) == UnaryResult(UnaryOf(op), was) && SameOutside(m.mem, m'.mem, a, a + 8)
            && m'.flags == UnaryFlags(UnaryOf(op), was, m.flags)
    ensures forall r: Reg | r != R11 :: m'.regs[r] == m.regs[r]
  {
    hide Run, Load64, LoadSlot, StoreSlot, UnaryResult, UnaryFlags;
    var off := c.locals[dest];
    var was := Load64(m.mem, Wrap(m.regs[RBP] + off));
    LoadSlotCorrect(R11, off, m, syms);
    var m1 := m.Set(R11, was);
    var un := [Ins(Unary(UnaryOf(op), R11))];
    Run1(un[0], m1, syms);
    var m2 := m1.(flags := UnaryFlags(UnaryOf(op), was, m.flags)).Set(R11, UnaryResult(UnaryOf(op), was));
    m' := StoreSlotCorrect(off, R11, m2, syms);
    RunConcat(LoadSlot(R11, off).value, un, m, syms);
    RunConcat(LoadSlot(R11, off).value + un, StoreSlot(off, R11).value, m, syms);
  }

  lemma CpuUnaryRegister(op: CpuUnaryOp, dest: string, c: Ctx, m: Machine, syms: Syms)
    requires dest !in c.locals && CpuUnaryCode(op, dest, c).Some?
    ensures var d := Resolve(dest).value;
            Run(CpuUnaryCode(op, dest, c).value, m, syms) ==
            Some(m.(flags := UnaryFlags(UnaryOf(op), m.regs[d], m.flags)).Set(d, UnaryResult(UnaryOf(op), m.regs[d])))
  {
    Run1(Ins(Unary(UnaryOf(op), Resolve(dest).value)), m, syms);
  }
}
