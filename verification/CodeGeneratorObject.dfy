/** The CodeGenerator object: it walks statements and drives the assembler. Every method is proved to
    append exactly the symbolic assembly that module Codegen specifies, or to fail exactly when that does. */
module CodeGeneratorObject {
  import opened Wrappers
  import opened Words
  import opened Regs
  import opened Isa
  import opened Encoding
  import opened Assembly
  import opened AssemblerObject
  import opened Ast
  import opened Codegen
  import opened Programs
  import Images

  lemma Chain(s0: AsmState, a: seq<Item>, s1: AsmState, b: seq<Item>, wide: bool)
    requires EmitAll(s0, a, wide) == Some(s1)
    ensures EmitAll(s0, a + b, wide) == EmitAll(s1, b, wide)
  {
    EmitConcat(s0, a, b, wide);
  }

  lemma EmitNone(s: AsmState, wide: bool)
    ensures EmitAll(s, [], wide) == Some(s)
  {
  }

  class CodeGenerator {
    const asm: Assembler
    var fnArgs: map<string, Reg>
    var fnLocals: map<string, int>
    var consts: map<string, int>
    var strings: set<string>
    var data: map<string, int>
    var dataBytes: seq<Byte>
    var structs: map<string, Struct>
    var inFn: bool
    var baremetal: bool

    function Names(): Ctx
      reads this
    {
      Ctx(fnArgs, fnLocals, consts, strings, data, structs, baremetal)
    }

    /** The assembler's buffer grew by `code`. */
    twostate predicate Emitted(code: seq<Item>)
      reads asm
    {
      && asm.deterministic == old(asm.deterministic)
      && EmitAll(old(asm.State()), code, asm.deterministic) == Some(asm.State())
      && (old(asm.Valid()) ==> asm.Valid())
    }

    constructor ()
      ensures fresh(asm) && asm.State() == EMPTY && asm.Valid() && Names() == NO_NAMES && !inFn && dataBytes == []
    {
      asm := new Assembler();
      fnArgs, fnLocals, consts, strings, data, structs, inFn, baremetal := map[], map[], map[], {}, map[], map[], false,
        false;
      dataBytes := [];
    }

    method LoadLocal(dst: Reg, off: int) returns (r: Outcome<string>)
      modifies asm
      ensures r.Pass? <==> LoadSlot(dst, off).Some?
      ensures r.Pass? ==> Emitted(LoadSlot(dst, off).value)
    {
      r := asm.LoadMem(W64, dst, Slot(off));
    }

    method StoreLocal(off: int, src: Reg) returns (r: Outcome<string>)
      modifies asm
      ensures r.Pass? <==> StoreSlot(off, src).Some?
      ensures r.Pass? ==> Emitted(StoreSlot(off, src).value)
    {
      r := asm.StoreMem(W64, Slot(off), src);
    }

    method Two(i: Instr, j: Instr)
      requires Legal(i) && Legal(j)
      modifies asm
      ensures Emitted([Ins(i), Ins(j)])
    {
      asm.Fixed(i);
      ghost var s1 := asm.State();
      asm.Fixed(j);
      Chain(old(asm.State()), [Ins(i)], s1, [Ins(j)], asm.deterministic);
      assert [Ins(i)] + [Ins(j)] == [Ins(i), Ins(j)];
    }

    method Eval(e: Expr, dst: Reg) returns (r: Outcome<string>)
      modifies asm
      ensures r.Pass? <==> ExprCode(e, dst, Names()).Some?
      ensures r.Pass? ==> Emitted(ExprCode(e, dst, Names()).value)
      decreases e
    {
      match e {
        case Num(v) => asm.MovRegImm64(dst, v); return Pass;
        case RegName(n) =>
          var src := Resolve(n);
          if src.None? { return Fail("unknown or reserved register"); }
          asm.MovRegReg(dst, src.value);
          return Pass;
        case Ident(n) => r := EvalIdent(n, dst);
        case FieldRef(s, f) =>
          if s !in structs { return Fail("unknown struct"); }
          if f !in structs[s].fields { return Fail("unknown field"); }
          asm.MovRegImm64(dst, structs[s].fields[f]);
          return Pass;
        case Str(_) => return Fail("bad operand");
        case Bin(op, left, right) =>
          r := Eval(left, R11);
          if r.Fail? { return; }
          ghost var s1 := asm.State();
          asm.Fixed(Push(R11));
          ghost var s2 := asm.State();
          r := Eval(right, R12);
          if r.Fail? { return; }
          ghost var s3 := asm.State();
          EvalTail(op, dst);
          ghost var lc, rc := ExprCode(left, R11, Names()).value, ExprCode(right, R12, Names()).value;
          ghost var tail := [Ins(Pop(R11)), Combine(op)] + Move(dst, R11);
          Chain(old(asm.State()), lc, s1, [Ins(Push(R11))], asm.deterministic);
          Chain(old(asm.State()), lc + [Ins(Push(R11))], s2, rc, asm.deterministic);
          Chain(old(asm.State()), lc + [Ins(Push(R11))] + rc, s3, tail, asm.deterministic);
      }
    }

    method EvalIdent(n: string, dst: Reg) returns (r: Outcome<string>)
      modifies asm
      ensures r.Pass? <==> ExprCode(Ident(n), dst, Names()).Some?
      ensures r.Pass? ==> Emitted(ExprCode(Ident(n), dst, Names()).value)
    {
      r := Pass;
      if n in fnArgs {
        asm.MovRegReg(dst, fnArgs[n]);
      } else if n in fnLocals {
        r := LoadLocal(dst, fnLocals[n]);
      } else if n in consts && n !in strings {
        asm.MovRegImm64(dst, consts[n]);
      } else if n in data {
        asm.EmitReference(LeaTo(dst, DataLabel(n)));
      } else if n in structs {
        asm.MovRegImm64(dst, structs[n].size);
      } else {
        r := Fail("unknown identifier");
      }
    }

    method EvalTail(op: BinOp, dst: Reg)
      modifies asm
      ensures Emitted([Ins(Pop(R11)), Combine(op)] + Move(dst, R11))
    {
      Two(Pop(R11), Combine(op).ins);
      ghost var s1 := asm.State();
      asm.MovRegReg(dst, R11);
      Chain(old(asm.State()), [Ins(Pop(R11)), Combine(op)], s1, Move(dst, R11), asm.deterministic);
    }

    method ShiftThroughCl(op: ShiftOp, dst: Reg, v: Reg)
      modifies asm
      ensures Emitted(ShiftByReg(op, dst, v))
    {
      hide EmitAll;
      ghost var s0, w := asm.State(), asm.deterministic;
      if dst == RCX {
        asm.Fixed(Push(RAX));
        ghost var s1 := asm.State();
        asm.MovRegReg(RAX, RCX);
        ghost var s2 := asm.State();
        asm.MovRegReg(RCX, v);
        ghost var s3 := asm.State();
        asm.Fixed(ShiftCl(op, RAX));
        ghost var s4 := asm.State();
        asm.MovRegReg(RCX, RAX);
        ghost var s5 := asm.State();
        asm.Fixed(Pop(RAX));
        ghost var a, b, c := [Ins(Push(RAX))], Move(RAX, RCX), Move(RCX, v);
        Chain(s0, a, s1, b, w);
        Chain(s0, a + b, s2, c, w);
        Chain(s0, a + b + c, s3, [Ins(ShiftCl(op, RAX))], w);
        Chain(s0, a + b + c + [Ins(ShiftCl(op, RAX))], s4, Move(RCX, RAX), w);
        Chain(s0, a + b + c + [Ins(ShiftCl(op, RAX))] + Move(RCX, RAX), s5, [Ins(Pop(RAX))], w);
      } else {
        asm.Fixed(Push(RCX));
        ghost var s1 := asm.State();
        asm.MovRegReg(RCX, v);
        ghost var s2 := asm.State();
        Two(ShiftCl(op, dst), Pop(RCX));
        ghost var a, c, d := [Ins(Push(RCX))], Move(RCX, v), [Ins(ShiftCl(op, dst)), Ins(Pop(RCX))];
        Chain(s0, a, s1, c, w);
        Chain(s0, a + c, s2, d, w);
        assert a + c + d == ShiftByReg(op, dst, v);
      }
    }

    method DivideInto(dst: Reg, v: Reg, result: Reg)
      modifies asm
      ensures Emitted(Division(dst, v, result))
    {
      ghost var s0, w := asm.State(), asm.deterministic;
      Two(Push(RAX), Push(RDX));
      ghost var s1 := asm.State();
      asm.MovRegReg(RAX, dst);
      ghost var s2 := asm.State();
      Two(Cqo, Idiv(v));
      ghost var s3 := asm.State();
      asm.MovRegReg(v, result);
      ghost var s4 := asm.State();
      Two(Pop(RDX), Pop(RAX));
      ghost var s5 := asm.State();
      asm.MovRegReg(dst, v);
      ghost var a, b, c := [Ins(Push(RAX)), Ins(Push(RDX))], Move(RAX, dst), [Ins(Cqo), Ins(Idiv(v))];
      ghost var d, e, f := Move(v, result), [Ins(Pop(RDX)), Ins(Pop(RAX))], Move(dst, v);
      Chain(s1, b, s2, c, w);
      Chain(s0, a, s1, b + c, w);
      Chain(s0, a + (b + c), s3, d, w);
      Chain(s4, e, s5, f, w);
      Chain(s0, a + (b + c) + d, s4, e + f, w);
    }

    method EmitOperation(op: CpuOp, dst: Reg, v: Reg, value: Expr)
      requires op != Set
      modifies asm
      ensures Emitted(Operate(op, dst, v, value))
    {
      if IsAlu(op) {
        asm.Fixed(Alu(AluOf(op), dst, v));
      } else if op == MulOp {
        asm.Fixed(Imul(dst, v));
      } else if IsShift(op) {
        if value.Num? {
          asm.Fixed(ShiftImm(ShiftOf(op), dst, value.value % 64));
        } else {
          ShiftThroughCl(ShiftOf(op), dst, v);
        }
      } else {
        DivideInto(dst, v, if op == ModOp then RDX else RAX);
      }
    }

    method SetLocal(off: int, value: Expr) returns (r: Outcome<string>)
      modifies asm
      ensures r.Pass? <==> Opt(ExprCode(value, R11, Names()), StoreSlot(off, R11)).Some?
      ensures r.Pass? ==> Emitted(ExprCode(value, R11, Names()).value + StoreSlot(off, R11).value)
    {
      hide ExprCode, StoreSlot, EmitAll;
      r := Eval(value, R11);
      if r.Fail? { return; }
      ghost var s1 := asm.State();
      r := StoreLocal(off, R11);
      if r.Fail? { return; }
      Chain(old(asm.State()), ExprCode(value, R11, Names()).value, s1, StoreSlot(off, R11).value, asm.deterministic);
    }

    /** Load the slot into r11 and the operand into r12. */
    method LocalOperands(off: int, value: Expr) returns (r: Outcome<string>)
      modifies asm
      ensures r.Pass? <==> Opt(LoadSlot(R11, off), ExprCode(value, R12, Names())).Some?
      ensures r.Pass? ==> Emitted(LoadSlot(R11, off).value + ExprCode(value, R12, Names()).value)
    {
      hide ExprCode, LoadSlot, EmitAll;
      r := LoadLocal(R11, off);
      if r.Fail? { return; }
      ghost var s1 := asm.State();
      r := Eval(value, R12);
      if r.Fail? { return; }
      Chain(old(asm.State()), LoadSlot(R11, off).value, s1, ExprCode(value, R12, Names()).value, asm.deterministic);
    }

    method OperateLocal(op: CpuOp, off: int, value: Expr) returns (r: Outcome<string>)
      requires op != Set
      modifies asm
      ensures var code := Opt(Opt(Opt(LoadSlot(R11, off), ExprCode(value, R12, Names())),
                                  Some(Operate(op, R11, R12, value))), StoreSlot(off, R11));
              && (r.Pass? <==> code.Some?) && (r.Pass? ==> Emitted(code.value))
    {
      hide Operate, ExprCode, LoadSlot, StoreSlot, EmitAll;
      ghost var s0, w := asm.State(), asm.deterministic;
      r := LocalOperands(off, value);
      if r.Fail? { return; }
      ghost var s2, operands := asm.State(), LoadSlot(R11, off).value + ExprCode(value, R12, Names()).value;
      EmitOperation(op, R11, R12, value);
      ghost var s3, oper := asm.State(), Operate(op, R11, R12, value);
      r := StoreLocal(off, R11);
      if r.Fail? { return; }
      Chain(s0, operands, s2, oper, w);
      Chain(s0, operands + oper, s3, StoreSlot(off, R11).value, w);
    }

    method EmitCpuBin(op: CpuOp, dest: string, value: Expr) returns (r: Outcome<string>)
      modifies asm
      ensures r.Pass? <==> CpuBinCode(op, dest, value, Names()).Some?
      ensures r.Pass? ==> Emitted(CpuBinCode(op, dest, value, Names()).value)
    {
      hide Operate, ExprCode, LoadSlot, StoreSlot, EmitAll, Resolve;
      if dest in fnLocals {
        if op == Set {
          r := SetLocal(fnLocals[dest], value);
        } else {
          r := OperateLocal(op, fnLocals[dest], value);
        }
      } else {
        var d := Resolve(dest);
        if d.None? { return Fail("unknown or reserved register"); }
        r := Eval(value, if op == Set then d.value else SCRATCH);
        if r.Fail? || op == Set { return; }
        ghost var s1 := asm.State();
        EmitOperation(op, d.value, SCRATCH, value);
        Chain(old(asm.State()), ExprCode(value, SCRATCH, Names()).value, s1, Operate(op, d.value, SCRATCH, value),
              asm.deterministic);
      }
    }

    method CmpTail()
      modifies asm
      ensures Emitted([Ins(Pop(R11)), Ins(Alu(CMP, R11, SCRATCH)), Ins(Pop(R11))])
    {
      hide EmitAll;
      ghost var s0 := asm.State();
      Two(Pop(R11), Alu(CMP, R11, SCRATCH));
      ghost var s1 := asm.State();
      asm.Fixed(Pop(R11));
      ghost var first := [Ins(Pop(R11)), Ins(Alu(CMP, R11, SCRATCH))];
      Chain(s0, first, s1, [Ins(Pop(R11))], asm.deterministic);
      assert first + [Ins(Pop(R11))] == [Ins(Pop(R11)), Ins(Alu(CMP, R11, SCRATCH)), Ins(Pop(R11))];
    }

    method EmitCmp(left: Expr, right: Expr) returns (r: Outcome<string>)
      modifies asm
      ensures r.Pass? <==> CmpCode(left, right, Names()).Some?
      ensures r.Pass? ==> Emitted(CmpCode(left, right, Names()).value)
    {
      hide ExprCode, EmitAll;
      ghost var s0, w := asm.State(), asm.deterministic;
      asm.Fixed(Push(R11));
      ghost var s1, save := asm.State(), [Ins(Push(R11))];
      r := Eval(left, SCRATCH);
      if r.Fail? { return; }
      ghost var s2, lc := asm.State(), ExprCode(left, SCRATCH, Names()).value;
      Two(MovRR(R11, SCRATCH), Push(R11));
      ghost var s3, park := asm.State(), [Ins(MovRR(R11, SCRATCH)), Ins(Push(R11))];
      r := Eval(right, SCRATCH);
      if r.Fail? { return; }
      ghost var s4, rc := asm.State(), ExprCode(right, SCRATCH, Names()).value;
      CmpTail();
      ghost var tail := [Ins(Pop(R11)), Ins(Alu(CMP, R11, SCRATCH)), Ins(Pop(R11))];
      Chain(s0, save, s1, lc, w);
      Chain(s2, park, s3, rc, w);
      Chain(s0, save + lc, s2, park + rc, w);
      Chain(s0, save + lc + (park + rc), s4, tail, w);
      assert park == Move(R11, SCRATCH) + [Ins(Push(R11))];
    }

    /** Evaluate and push up to six arguments, then pop them into their registers, last first. */
    method EmitMarshal(args: seq<Expr>, via: Reg, targets: seq<Reg>) returns (r: Outcome<string>)
      requires |targets| == 6
      modifies asm
      ensures r.Pass? <==> Marshal(args, via, targets, Names()).Some?
      ensures r.Pass? ==> Emitted(Marshal(args, via, targets, Names()).value)
    {
      hide ExprCode, EmitAll;
      ghost var s0, w := asm.State(), asm.deterministic;
      var six := FirstSix(args);
      var i := 0;
      assert PushArgs([], via, Names()) == Some([]);
      EmitNone(s0, w);
      while i < |six|
        invariant i <= |six| && asm.deterministic == w && (old(asm.Valid()) ==> asm.Valid())
        invariant PushArgs(six[..i], via, Names()).Some?
        invariant EmitAll(s0, PushArgs(six[..i], via, Names()).value, w) == Some(asm.State())
      {
        ghost var s1, done := asm.State(), PushArgs(six[..i], via, Names()).value;
        assert six[..i + 1][..i] == six[..i];
        r := Eval(six[i], via);
        if r.Fail? {
          PushArgsFails(six, i, via, Names());
          return;
        }
        ghost var s2, ev := asm.State(), ExprCode(six[i], via, Names()).value;
        asm.Fixed(Push(via));
        Chain(s1, ev, s2, [Ins(Push(via))], w);
        Chain(s0, done, s1, ev + [Ins(Push(via))], w);
        i := i + 1;
      }
      assert six[..i] == six;
      ghost var pushed, s3 := PushArgs(six, via, Names()).value, asm.State();
      EmitNone(s3, w);
      PopArgsAt(|six|, targets, |six|);
      while i > 0
        invariant i <= |six| == |PopArgs(|six|, targets)| && asm.deterministic == w &&
                  (old(asm.Valid()) ==> asm.Valid())
        invariant EmitAll(s3, PopArgs(|six|, targets)[..|six| - i], w) == Some(asm.State())
      {
        PopArgsAt(|six|, targets, |six| - i);
        ghost var s4, done := asm.State(), PopArgs(|six|, targets)[..|six| - i];
        i := i - 1;
        asm.Fixed(Pop(targets[i]));
        Chain(s3, done, s4, [Ins(Pop(targets[i]))], w);
        assert done + [Ins(Pop(targets[i]))] == PopArgs(|six|, targets)[..|six| - i];
      }
      assert PopArgs(|six|, targets)[..|six|] == PopArgs(|six|, targets);
      Chain(s0, pushed, s3, PopArgs(|six|, targets), w);
      return Pass;
    }

    method EmitUnary(op: CpuUnaryOp, dest: string) returns (r: Outcome<string>)
      modifies asm
      ensures r.Pass? <==> CpuUnaryCode(op, dest, Names()).Some?
      ensures r.Pass? ==> Emitted(CpuUnaryCode(op, dest, Names()).value)
    {
      hide LoadSlot, StoreSlot, EmitAll, Resolve;
      if dest in fnLocals {
        var off := fnLocals[dest];
        r := LoadLocal(R11, off);
        if r.Fail? { return; }
        ghost var s1, load := asm.State(), LoadSlot(R11, off).value;
        asm.Fixed(Unary(UnaryOf(op), R11));
        ghost var s2, oper := asm.State(), [Ins(Unary(UnaryOf(op), R11))];
        r := StoreLocal(off, R11);
        if r.Fail? { return; }
        Chain(old(asm.State()), load, s1, oper, asm.deterministic);
        Chain(old(asm.State()), load + oper, s2, StoreSlot(off, R11).value, asm.deterministic);
      } else {
        var d := Resolve(dest);
        if d.None? { return Fail("unknown or reserved register"); }
        asm.Fixed(Unary(UnaryOf(op), d.value));
        return Pass;
      }
    }

    /** `_fn_epilogue`, or its prefix of the first k items. */
    method EmitFixedList(items: seq<Item>)
      requires forall k | 0 <= k < |items| :: items[k].Ins? && Legal(items[k].ins)
      modifies asm
      ensures Emitted(items)
    {
      hide EmitAll, Encode;
      var i := 0;
      EmitNone(asm.State(), asm.deterministic);
      while i < |items|
        invariant i <= |items| && asm.deterministic == old(asm.deterministic) && (old(asm.Valid()) ==> asm.Valid())
        invariant EmitAll(old(asm.State()), items[..i], asm.deterministic) == Some(asm.State())
      {
        ghost var s1 := asm.State();
        asm.Fixed(items[i].ins);
        Chain(old(asm.State()), items[..i], s1, [items[i]], asm.deterministic);
        assert items[..i] + [items[i]] == items[..i + 1];
        i := i + 1;
      }
      assert items[..i] == items;
    }

    method EmitReturn()
      modifies asm
      ensures Emitted((if inFn then RESTORE else []) + [Ins(Instr.Ret)])
    {
      EmitFixedList((if inFn then RESTORE else []) + [Ins(Instr.Ret)]);
    }

    /** Operand code followed by one reference or fixed list. */
    method EvalThen(e: Expr, dst: Reg, items: seq<Item>) returns (r: Outcome<string>)
      requires forall k | 0 <= k < |items| :: items[k].Ins? && Legal(items[k].ins)
      modifies asm
      ensures r.Pass? <==> ExprCode(e, dst, Names()).Some?
      ensures r.Pass? ==> Emitted(ExprCode(e, dst, Names()).value + items)
    {
      hide ExprCode, EmitAll;
      r := Eval(e, dst);
      if r.Fail? { return; }
      ghost var s1 := asm.State();
      EmitFixedList(items);
      Chain(old(asm.State()), ExprCode(e, dst, Names()).value, s1, items, asm.deterministic);
    }

    method EmitCall(callee: string, args: seq<Expr>) returns (r: Outcome<string>)
      modifies asm
      ensures r.Pass? <==> CallCode(callee, args, Names()).Some?
      ensures r.Pass? ==> Emitted(CallCode(callee, args, Names()).value)
    {
      hide Marshal, EmitAll;
      r := EmitMarshal(args, R11, CALL_ARGS);
      if r.Fail? { return; }
      ghost var s1 := asm.State();
      asm.EmitReference(CallTo(UserLabel(callee)));
      Chain(old(asm.State()), Marshal(args, R11, CALL_ARGS, Names()).value, s1, [CallTo(UserLabel(callee))],
            asm.deterministic);
    }

    method EmitSyscall(num: SysNum, args: seq<Expr>) returns (r: Outcome<string>)
      modifies asm
      ensures r.Pass? <==> SyscallCode(num, args, Names()).Some?
      ensures r.Pass? ==> Emitted(SyscallCode(num, args, Names()).value)
    {
      hide Marshal, EmitAll, Lower;
      if baremetal {
        return Fail("sys:call is not valid in a bare-metal program");
      }
      var number: int;
      match num {
        case Numbered(n) => number := n;
        case Named(s) =>
          if Lower(s) !in NAMED_SYSCALLS {
            return Fail("unknown syscall");
          }
          number := NAMED_SYSCALLS[Lower(s)];
      }
      r := EmitMarshal(args, SCRATCH, SYSCALL_ARGS);
      if r.Fail? { return; }
      ghost var s1 := asm.State();
      asm.MovRegImm64(RAX, number);
      ghost var s2 := asm.State();
      var rest := [Ins(Push(RCX)), Ins(Push(R11)), Ins(Syscall), Ins(Pop(R11)), Ins(Pop(RCX))];
      EmitFixedList(rest);
      Chain(s1, Imm(RAX, number), s2, rest, asm.deterministic);
      Chain(old(asm.State()), Marshal(args, SCRATCH, SYSCALL_ARGS, Names()).value, s1, Imm(RAX, number) + rest,
            asm.deterministic);
    }

    /** Statement code fits the assembler: it is specified, and assembling it raises no error. */
    ghost predicate Assembles(code: Option<seq<Item>>, s: AsmState, wide: bool) {
      code.Some? && EmitAll(s, code.value, wide).Some?
    }

    method EmitStmt(s: Stmt) returns (r: Outcome<string>)
      modifies asm
      ensures r.Pass? <==> Assembles(StmtCode(s, Names(), inFn), old(asm.State()), old(asm.deterministic))
      ensures r.Pass? ==> Emitted(StmtCode(s, Names(), inFn).value)
    {
      hide ExprCode, CpuBinCode, CpuUnaryCode, CmpCode, CallCode, SyscallCode, Resolve, CondCode, EmitAll, Encode;
      match s {
        case Label(n) =>
          Emit1(asm.State(), Lab(UserLabel(n)), asm.deterministic);
          r := asm.Label(UserLabel(n));
        case Goto(l) => asm.EmitReference(JmpTo(UserLabel(l))); return Pass;
        case JumpIf(cond, l) =>
          var cc := CondCode(cond);
          if cc.None? { return Fail("unknown condition"); }
          asm.EmitReference(JccTo(cc.value, UserLabel(l)));
          return Pass;
        case Cmp(l, right) => r := EmitCmp(l, right);
        case CpuBin(op, d, v) => r := EmitCpuBin(op, d, v);
        case CpuUnary(op, d) => r := EmitUnary(op, d);
        case CallFn(f, args) => r := EmitCall(f, args);
        case SysCall(n, args) => r := EmitSyscall(n, args);
        case Ret => EmitReturn(); return Pass;
        case RetVal(e) => r := EvalThen(e, RAX, (if inFn then RESTORE else []) + [Ins(Instr.Ret)]);
        case StackPush(e) => r := EvalThen(e, R11, [Ins(Push(R11))]);
        case StackPop(d) =>
          var reg := Resolve(d);
          if reg.None? { return Fail("unknown or reserved register"); }
          asm.Fixed(Pop(reg.value));
          return Pass;
      }
    }

    /** Statements in order; stops at the first error. */
    method EmitBody(body: seq<Stmt>) returns (r: Outcome<string>)
      modifies asm
      ensures r.Pass? <==> Assembles(BodyCode(body, Names(), inFn), old(asm.State()), old(asm.deterministic))
      ensures r.Pass? ==> Emitted(BodyCode(body, Names(), inFn).value)
    {
      hide StmtCode, EmitAll;
      var i := 0;
      ghost var s0, w := asm.State(), asm.deterministic;
      EmitNone(s0, w);
      while i < |body|
        invariant i <= |body| && asm.deterministic == w && (old(asm.Valid()) ==> asm.Valid())
        invariant BodyCode(body[..i], Names(), inFn).Some?
        invariant EmitAll(s0, BodyCode(body[..i], Names(), inFn).value, w) == Some(asm.State())
      {
        ghost var s1, done := asm.State(), BodyCode(body[..i], Names(), inFn).value;
        assert body[..i + 1][..i] == body[..i];
        r := EmitStmt(body[i]);
        if r.Fail? {
          BodyFails(body, i, Names(), inFn, s0, w, s1);
          return;
        }
        Chain(s0, done, s1, StmtCode(body[i], Names(), inFn).value, w);
        i := i + 1;
      }
      assert body[..i] == body;
      return Pass;
    }

    /** A function's label and prologue. */
    method FnHead(f: FnDef) returns (r: Outcome<string>)
      modifies asm
      ensures r.Pass? <==> Assembles(FnStart(f), old(asm.State()), old(asm.deterministic))
      ensures r.Pass? ==> Emitted(FnStart(f).value)
    {
      hide EmitAll, Prologue;
      ghost var s0, w := asm.State(), asm.deterministic;
      ghost var lab := [Lab(UserLabel(f.name))];
      Emit1(s0, Lab(UserLabel(f.name)), w);
      r := asm.Label(UserLabel(f.name));
      if r.Fail? {
        if FnStart(f).Some? { EmitConcat(s0, lab, Prologue(f.locals).value, w); }
        return;
      }
      ghost var s1 := asm.State();
      r := EmitPrologue(f.locals);
      if r.Fail? { return; }
      Chain(s0, lab, s1, Prologue(f.locals).value, w);
    }

    /** `_emit_fn`: the function's names are in scope for its body only. */
    method EmitFn(f: FnDef) returns (r: Outcome<string>)
      modifies this, asm
      ensures r.Pass? <==> Assembles(FnCode(f, old(Names())), old(asm.State()), old(asm.deterministic))
      ensures r.Pass? ==> Emitted(FnCode(f, old(Names())).value)
      ensures r.Pass? ==> fnArgs == map[] && fnLocals == map[] && !inFn
      ensures consts == old(consts) && strings == old(strings) && data == old(data) && structs == old(structs)
      ensures dataBytes == old(dataBytes) && baremetal == old(baremetal)
    {
      hide FnCode, FnStart, BodyCode, EmitAll, Prologue, Round16, LocalsSize, LocalSlots, ArgRegs;
      ghost var s0, w, names := asm.State(), asm.deterministic, Names();
      ghost var inner := Inside(f, names);
      r := FnHead(f);
      if r.Fail? {
        FnFails(f, names, s0, w);
        return;
      }
      ghost var s2 := asm.State();
      fnLocals := LocalSlots(f.locals);
      inFn := true;
      fnArgs := ArgRegs(f.args);
      assert Names() == inner;
      r := EmitBody(f.body);
      if r.Fail? {
        FnBodyFails(f, names, s0, s2, w);
        return;
      }
      ghost var s3 := asm.State();
      inFn := false;
      fnLocals := map[];
      fnArgs := map[];
      EmitFixedList(RESTORE + [Ins(Instr.Ret)]);
      FnAssembled(f, names, s0, s2, s3, w);
      return Pass;
    }

    method EmitPrologue(locals: seq<(string, nat)>) returns (r: Outcome<string>)
      modifies asm
      ensures r.Pass? <==> Prologue(locals).Some?
      ensures r.Pass? ==> Emitted(Prologue(locals).value)
    {
      var code := Prologue(locals);
      if code.None? { return Fail("value does not fit in imm32"); }
      PrologueFixed(locals);
      EmitFixedList(code.value);
      return Pass;
    }

    // ---- whole programs ----

    /** `_collect_structs`. */
    method CollectStructs(prog: seq<Top>)
      requires structs == map[]
      modifies this`structs
      ensures structs == Structs(prog)
    {
      var i := 0;
      assert prog[..0] == [];
      while i < |prog|
        invariant i <= |prog| && structs == Structs(prog[..i])
      {
        assert prog[..i + 1][..i] == prog[..i];
        if prog[i].StructDef? {
          var fields: map<string, int>, off := map[], 0;
          var fs, j := prog[i].fields, 0;
          assert fs[..0] == [];
          while j < |fs|
            invariant j <= |fs| && Struct(fields, off) == FieldOffsets(fs[..j])
          {
            assert fs[..j + 1][..j] == fs[..j];
            fields := fields[fs[j].0 := off];
            off := off + fs[j].1;
            j := j + 1;
          }
          assert fs[..j] == fs;
          structs := structs[prog[i].name := Struct(fields, off)];
        }
        i := i + 1;
      }
      assert prog[..i] == prog;
    }

    /** The data area as a value, with its running offset. */
    function DataAt(off: int): DataState
      reads this
    {
      DataState(off, dataBytes, data, consts, strings)
    }

    method PlaceDecl(d: DataDecl, off: int) returns (r: Outcome<string>, end: int)
      modifies this`dataBytes, this`data, this`consts, this`strings
      ensures r.Pass? <==> Place(d, old(DataAt(off)), structs).Some?
      ensures r.Pass? ==> Place(d, old(DataAt(off)), structs) == Some(DataAt(end))
    {
      end := off;
      match d {
        case Alloc(n, size) =>
          var sz := SizeIn(size, structs);
          if sz.None? { return Fail("unknown struct or size"), off; }
          data := data[n := off];
          dataBytes := dataBytes + ZeroBytes(sz.value);
          end := off + sz.value;
        case Align(a) =>
          var pad := (a - off % a) % a;
          dataBytes := dataBytes + ZeroBytes(pad);
          end := off + pad;
        case DataBytes(n, values) =>
          data := data[n := off];
          strings := strings + {n};
          dataBytes := dataBytes + values;
          end := off + |values|;
        case ConstNum(n, v) =>
          consts := consts[n := v];
          data := data[n := off];
          dataBytes := dataBytes + LE(Wrap(v), 8);
          end := off + 8;
        case ConstStr(n, raw) =>
          data := data[n := off];
          strings := strings + {n};
          dataBytes := dataBytes + raw;
          end := off + |raw|;
      }
      return Pass, end;
    }

    /** `_collect_data`. */
    method CollectData(prog: seq<Top>) returns (r: Outcome<string>)
      requires DataAt(0) == NO_DATA
      modifies this`dataBytes, this`data, this`consts, this`strings
      ensures r.Pass? <==> Collect(prog, structs).Some?
      ensures r.Pass? ==> exists off :: Collect(prog, structs) == Some(DataAt(off))
    {
      hide Place;
      var i, off := 0, 0;
      assert prog[..0] == [];
      while i < |prog|
        invariant i <= |prog| && Collect(prog[..i], structs) == Some(DataAt(off))
      {
        assert prog[..i + 1][..i] == prog[..i];
        if prog[i].Decl? {
          r, off := PlaceDecl(prog[i].decl, off);
          if r.Fail? {
            CollectFails(prog, i, structs);
            return;
          }
        }
        i := i + 1;
      }
      assert prog[..i] == prog;
      return Pass;
    }

    /** The link map: code labels, data labels behind the code, and the W^X padding. */
    method LinkMap(wx: bool) returns (offs: map<string, int>)
      ensures offs == FinalOffsets(asm.labels, data, |asm.code|, wx)
    {
      hide DataOffsets, Without, IsDataLabel;
      var codeLen := |asm.code|;
      offs := map l | l in asm.labels :: asm.labels[l] as int;
      ghost var plain := offs;
      var keys := data.Keys;
      WithoutAll(data, codeLen);
      while keys != {}
        invariant keys <= data.Keys
        invariant offs == plain + DataOffsets(Without(data, keys), codeLen)
        decreases |keys|
      {
        var n :| n in keys;
        WithoutLess(data, keys, n, codeLen);
        offs := offs[DataLabel(n) := codeLen + data[n]];
        keys := keys - {n};
      }
      if wx {
        offs := Shift(offs, Images.WxPad(codeLen));
      }
    }

    static method Shift(all: map<string, int>, pad: int) returns (offs: map<string, int>)
      ensures offs == map l | l in all :: all[l] + (if IsDataLabel(l) then pad else 0)
    {
      offs := all;
      var keys := offs.Keys;
      while keys != {}
        invariant keys <= all.Keys && offs.Keys == all.Keys
        invariant forall l <- all :: offs[l] == all[l] + (if IsDataLabel(l) && l !in keys then pad else 0)
        decreases |keys|
      {
        var l :| l in keys;
        if "__data_" <= l {
          offs := offs[l := offs[l] + pad];
        }
        keys := keys - {l};
      }
    }

    /** Top-level statements in order; declarations and functions are passed over. */
    method EmitTop(prog: seq<Top>) returns (r: Outcome<string>)
      modifies asm
      ensures r.Pass? <==> Assembles(BodyCode(TopStmts(prog), Names(), inFn), old(asm.State()), old(asm.deterministic))
      ensures r.Pass? ==> Emitted(BodyCode(TopStmts(prog), Names(), inFn).value)
    {
      hide StmtCode, EmitAll;
      var stmts := [];
      var i := 0;
      while i < |prog|
        invariant i <= |prog| && stmts == TopStmts(prog[..i])
      {
        assert prog[..i + 1][..i] == prog[..i];
        if prog[i].Do? {
          stmts := stmts + [prog[i].stmt];
        }
        i := i + 1;
      }
      assert prog[..i] == prog;
      r := EmitBody(stmts);
    }

    method EmitFns(prog: seq<Top>) returns (r: Outcome<string>)
      requires fnArgs == map[] && fnLocals == map[] && !inFn
      modifies this, asm
      ensures r.Pass? <==> Assembles(FnsCode(Functions(prog), old(Names())), old(asm.State()), old(asm.deterministic))
      ensures r.Pass? ==> Emitted(FnsCode(Functions(prog), old(Names())).value)
      ensures data == old(data) && dataBytes == old(dataBytes)
    {
      hide FnCode, EmitAll;
      ghost var s0, w, names := asm.State(), asm.deterministic, Names();
      var i := 0;
      EmitNone(s0, w);
      assert prog[..0] == [];
      while i < |prog|
        invariant i <= |prog| && asm.deterministic == w && (old(asm.Valid()) ==> asm.Valid())
        invariant Names() == names && !inFn && dataBytes == old(dataBytes)
        invariant FnsCode(Functions(prog[..i]), names).Some?
        invariant EmitAll(s0, FnsCode(Functions(prog[..i]), names).value, w) == Some(asm.State())
      {
        ghost var s1, done := asm.State(), FnsCode(Functions(prog[..i]), names).value;
        assert prog[..i + 1][..i] == prog[..i];
        if prog[i].Fn? {
          ghost var before, fns := Functions(prog[..i]), Functions(prog[..i + 1]);
          assert fns[..|fns| - 1] == before;
          r := EmitFn(prog[i].def);
          if r.Fail? {
            FnsFail(prog, i, names, s0, w, s1);
            return;
          }
          Chain(s0, done, s1, FnCode(prog[i].def, names).value, w);
        }
        i := i + 1;
      }
      assert prog[..i] == prog;
      return Pass;
    }

    /** `generate` up to the image writers: collect, emit, link. */
    method Generate(prog: seq<Top>, o: Options) returns (r: Outcome<string>)
      requires asm.State() == EMPTY && asm.Valid() && Names() == NO_NAMES && !inFn && dataBytes == []
      modifies this, asm
      ensures r.Pass? <==> Programs.Generate(prog, o).Some?
      ensures r.Pass? ==>
                asm.code == Programs.Generate(prog, o).value.code && dataBytes == Programs.Generate(prog, o).value.data
    {
      hide EmitAll, Collect, BodyCode, FnsCode, FinalOffsets, LinkAll, FieldsOk;
      baremetal := o.baremetal;
      CollectStructs(prog);
      r := CollectData(prog);
      if r.Fail? { return; }
      asm.deterministic := o.wide;
      ghost var names := Names();
      r := EmitProgram(prog, o);
      if r.Fail? { return; }
      ghost var a := asm.State();
      EmitKeepsFields(EMPTY, ProgramCode(prog, o, names).value, o.wide) by { EmptyFields(); }
      var offs := LinkMap(o.wx);
      r := asm.Link(offs);
    }

    method EmitProgram(prog: seq<Top>, o: Options) returns (r: Outcome<string>)
      requires fnArgs == map[] && fnLocals == map[] && !inFn
      modifies this, asm
      ensures r.Pass? <==> Assembles(ProgramCode(prog, o, old(Names())), old(asm.State()), old(asm.deterministic))
      ensures r.Pass? ==> Emitted(ProgramCode(prog, o, old(Names())).value)
      ensures data == old(data) && dataBytes == old(dataBytes)
    {
      hide EmitAll, BodyCode, FnsCode;
      ghost var s0, w, names := asm.State(), asm.deterministic, Names();
      ghost var top, fns, tail := BodyCode(TopStmts(prog), names, false), FnsCode(Functions(prog), names),
        Tail(prog, o);
      r := EmitTop(prog);
      if r.Fail? {
        ProgramFails(s0, top, tail, fns, w);
        return;
      }
      ghost var s1 := asm.State();
      EmitNone(s1, w);
      if !o.baremetal && !EndsExit(prog) {
        EmitExit();
      }
      ghost var s2 := asm.State();
      Chain(s0, top.value, s1, tail, w);
      r := EmitFns(prog);
      if r.Fail? {
        if fns.Some? {
          Chain(s0, top.value + tail, s2, fns.value, w);
        }
        return;
      }
      Chain(s0, top.value + tail, s2, fns.value, w);
    }

    method EmitExit()
      modifies asm
      ensures Emitted(ExitCode())
    {
      hide EmitAll;
      ghost var s0 := asm.State();
      asm.MovRegImm64(RAX, 60);
      ghost var s1 := asm.State();
      Two(Alu(XOR, RDI, RDI), Syscall);
      Chain(s0, Imm(RAX, 60), s1, [Ins(Alu(XOR, RDI, RDI)), Ins(Syscall)], asm.deterministic);
    }
  }

  function FnStart(f: FnDef): Option<seq<Item>> {
    Opt(Some([Lab(UserLabel(f.name))]), Prologue(f.locals))
  }

  lemma PrologueFixed(locals: seq<(string, nat)>)
    requires Prologue(locals).Some?
    ensures var p := Prologue(locals).value; forall k | 0 <= k < |p| :: p[k].Ins? && Legal(p[k].ins)
  {
    hide LocalsSize, Round16;
  }

  /** If a prefix of the code does not assemble, none of the longer programs does. */
  lemma FnFails(f: FnDef, c: Ctx, s: AsmState, wide: bool)
    requires FnStart(f).Some? ==> EmitAll(s, FnStart(f).value, wide).None?
    ensures FnCode(f, c).Some? ==> EmitAll(s, FnCode(f, c).value, wide).None?
  {
    hide BodyCode, Prologue, EmitAll;
    if FnCode(f, c).Some? {
      var head := FnStart(f).value;
      var rest := FnCode(f, c).value[|head|..];
      assert FnCode(f, c).value == head + rest;
      EmitConcat(s, head, rest, wide);
    }
  }

  /** The body in its own context. */
  function FnBody(f: FnDef, c: Ctx): Option<seq<Item>> {
    BodyCode(f.body, Inside(f, c), true)
  }

  lemma FnParts(f: FnDef, c: Ctx)
    ensures FnCode(f, c).Some? <==> FnStart(f).Some? && FnBody(f, c).Some?
    ensures FnCode(f, c).Some? ==>
              FnCode(f, c).value == FnStart(f).value + FnBody(f, c).value + (RESTORE + [Ins(Instr.Ret)])
  {
    hide BodyCode, Prologue, ArgRegs, LocalSlots;
  }

  lemma FnBodyFails(f: FnDef, c: Ctx, s0: AsmState, s1: AsmState, wide: bool)
    requires FnStart(f).Some? && EmitAll(s0, FnStart(f).value, wide) == Some(s1)
    requires FnBody(f, c).Some? ==> EmitAll(s1, FnBody(f, c).value, wide).None?
    ensures FnCode(f, c).Some? ==> EmitAll(s0, FnCode(f, c).value, wide).None?
  {
    hide EmitAll, FnCode, FnStart, FnBody;
    FnParts(f, c);
    if FnCode(f, c).Some? {
      Chain(s0, FnStart(f).value, s1, FnBody(f, c).value, wide);
      EmitConcat(s0, FnStart(f).value + FnBody(f, c).value, RESTORE + [Ins(Instr.Ret)], wide);
    }
  }

  /** Head, body and epilogue assembled one after the other are the function assembled. */
  lemma FnAssembled(f: FnDef, c: Ctx, s0: AsmState, s1: AsmState, s2: AsmState, wide: bool)
    requires FnStart(f).Some? && EmitAll(s0, FnStart(f).value, wide) == Some(s1)
    requires FnBody(f, c).Some? && EmitAll(s1, FnBody(f, c).value, wide) == Some(s2)
    ensures FnCode(f, c).Some? && EmitAll(s0, FnCode(f, c).value, wide) == EmitAll(s2, RESTORE + [Ins(Instr.Ret)], wide)
  {
    hide EmitAll, FnCode, FnStart, FnBody;
    FnParts(f, c);
    Chain(s0, FnStart(f).value, s1, FnBody(f, c).value, wide);
    Chain(s0, FnStart(f).value + FnBody(f, c).value, s2, RESTORE + [Ins(Instr.Ret)], wide);
  }

  lemma {:induction false} BodyFails(body: seq<Stmt>, i: nat, c: Ctx, inFn: bool, s0: AsmState, wide: bool,
                                     s1: AsmState)
    requires i < |body| && BodyCode(body[..i], c, inFn).Some?
    requires EmitAll(s0, BodyCode(body[..i], c, inFn).value, wide) == Some(s1)
    requires StmtCode(body[i], c, inFn).Some? ==> EmitAll(s1, StmtCode(body[i], c, inFn).value, wide).None?
    ensures BodyCode(body, c, inFn).Some? ==> EmitAll(s0, BodyCode(body, c, inFn).value, wide).None?
    decreases |body|
  {
    hide StmtCode, EmitAll;
    var n := |body| - 1;
    if i == n {
      if StmtCode(body[i], c, inFn).Some? {
        Chain(s0, BodyCode(body[..i], c, inFn).value, s1, StmtCode(body[i], c, inFn).value, wide);
      }
    } else {
      assert body[..n][..i] == body[..i];
      BodyFails(body[..n], i, c, inFn, s0, wide, s1);
      if BodyCode(body, c, inFn).Some? {
        EmitConcat(s0, BodyCode(body[..n], c, inFn).value, StmtCode(body[n], c, inFn).value, wide);
      }
    }
  }

  lemma {:induction false} PushArgsFails(args: seq<Expr>, i: nat, via: Reg, c: Ctx)
    requires i < |args| && ExprCode(args[i], via, c).None?
    ensures PushArgs(args, via, c).None?
    decreases |args|
  {
    hide ExprCode;
    if i < |args| - 1 {
      PushArgsFails(args[..|args| - 1], i, via, c);
    }
  }

  lemma {:induction false} PopArgsAt(n: nat, targets: seq<Reg>, k: nat)
    requires k <= n <= |targets|
    ensures |PopArgs(n, targets)| == n
    ensures k < n ==> PopArgs(n, targets)[k] == Ins(Pop(targets[n - 1 - k]))
    decreases n
  {
    if n > 0 {
      PopArgsAt(n - 1, targets, if k > 0 then k - 1 else 0);
    }
  }

  /** The entries of a map outside a set of keys. */
  function Without(m: map<string, int>, keys: set<string>): map<string, int> {
    map n | n in m && n !in keys :: m[n]
  }

  lemma WithoutAll(m: map<string, int>, codeLen: nat)
    ensures DataOffsets(Without(m, m.Keys), codeLen) == map[] && Without(m, {}) == m
  {
    assert Without(m, m.Keys) == map[];
  }

  lemma WithoutLess(m: map<string, int>, keys: set<string>, n: string, codeLen: nat)
    requires n in keys && keys <= m.Keys
    ensures DataOffsets(Without(m, keys - {n}), codeLen) ==
            DataOffsets(Without(m, keys), codeLen)[DataLabel(n) := codeLen + m[n]]
  {
    hide DataOffsets, DataLabel;
    assert Without(m, keys - {n}) == Without(m, keys)[n := m[n]];
    hide Without;
    DataOffsetsAdd(Without(m, keys), n, m[n], codeLen);
  }

  predicate DataOffsetsEntry(m: map<string, int>, codeLen: nat, l: string) {
    var d := DataOffsets(m, codeLen);
    && (l in d <==> IsDataLabel(l) && l[7..] in m)
    && (l in d ==> d[l] == codeLen + m[l[7..]])
  }

  lemma DataOffsetsAt(m: map<string, int>, codeLen: nat, l: string)
    ensures DataOffsetsEntry(m, codeLen, l)
  {
    DataLabelsInjective();
    if IsDataLabel(l) {
      assert l == DataLabel(l[7..]);
    }
  }

  lemma DataOffsetsAdd(m: map<string, int>, n: string, v: int, codeLen: nat)
    ensures DataOffsets(m[n := v], codeLen) == DataOffsets(m, codeLen)[DataLabel(n) := codeLen + v]
  {
    forall l
      ensures DataOffsetsEntry(m[n := v], codeLen, l) && DataOffsetsEntry(m, codeLen, l)
    {
      DataOffsetsAt(m[n := v], codeLen, l);
      DataOffsetsAt(m, codeLen, l);
    }
    assert DataLabel(n)[7..] == n;
    hide DataOffsets;
  }

  lemma {:induction false} CollectFails(prog: seq<Top>, i: nat, structs: map<string, Struct>)
    requires i < |prog| && Collect(prog[..i + 1], structs).None?
    ensures Collect(prog, structs).None?
    decreases |prog|
  {
    if i < |prog| - 1 {
      assert prog[..|prog| - 1][..i + 1] == prog[..i + 1];
      CollectFails(prog[..|prog| - 1], i, structs);
    } else {
      assert prog[..i + 1] == prog;
    }
  }

  lemma ProgramFails(s: AsmState, top: Option<seq<Item>>, tail: seq<Item>, fns: Option<seq<Item>>, wide: bool)
    requires top.None? || EmitAll(s, top.value, wide).None?
    ensures Opt(Opt(top, Some(tail)), fns).Some? ==> EmitAll(s, Opt(Opt(top, Some(tail)), fns).value, wide).None?
  {
    hide EmitAll;
    if top.Some? && fns.Some? {
      EmitConcat(s, top.value, tail, wide);
      EmitConcat(s, top.value + tail, fns.value, wide);
    }
  }

  lemma {:induction false} FnsFail(prog: seq<Top>, i: nat, c: Ctx, s0: AsmState, wide: bool, s1: AsmState)
    requires i < |prog| && prog[i].Fn? && FnsCode(Functions(prog[..i]), c).Some?
    requires EmitAll(s0, FnsCode(Functions(prog[..i]), c).value, wide) == Some(s1)
    requires FnCode(prog[i].def, c).Some? ==> EmitAll(s1, FnCode(prog[i].def, c).value, wide).None?
    ensures FnsCode(Functions(prog), c).Some? ==> EmitAll(s0, FnsCode(Functions(prog), c).value, wide).None?
    decreases |prog|
  {
    hide FnCode, EmitAll;
    var n, fns := |prog| - 1, Functions(prog);
    if prog[n].Fn? {
      assert fns[..|fns| - 1] == Functions(prog[..n]);
    }
    if i == n {
      if FnCode(prog[i].def, c).Some? {
        Chain(s0, FnsCode(Functions(prog[..i]), c).value, s1, FnCode(prog[i].def, c).value, wide);
      }
    } else {
      assert prog[..n][..i] == prog[..i];
      FnsFail(prog[..n], i, c, s0, wide, s1);
      if prog[n].Fn? && FnsCode(fns, c).Some? {
        EmitConcat(s0, FnsCode(Functions(prog[..n]), c).value, FnCode(prog[n].def, c).value, wide);
      }
    }
  }
}
