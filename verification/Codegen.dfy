/** What ACLM/codegen.py emits for each operand and statement, as symbolic assembly.
    None stands for the CodegenError, ValueError or KeyError the generator raises. */
module Codegen {
  import opened Wrappers
  import opened Words
  import opened Regs
  import opened Isa
  import opened Encoding
  import opened Assembly
  import opened Ast

  datatype Struct = Struct(fields: map<string, int>, size: int)

  /** The name tables of the generator. `strings` are the constants whose address, not value, is used. */
  datatype Ctx = Ctx(args: map<string, Reg>, locals: map<string, int>, consts: map<string, int>,
                     strings: set<string>, data: map<string, int>, structs: map<string, Struct>, bare: bool)

  const NO_NAMES: Ctx := Ctx(map[], map[], map[], {}, map[], map[], false)

  function Move(d: Reg, s: Reg): seq<Item> {
    if d == s then [] else [Ins(MovRR(d, s))]
  }

  function Imm(d: Reg, v: int): seq<Item> {
    [Ins(MovImm(d, Wrap(v)))]
  }

  function Slot(off: int): MemRef {
    MemRef(RBP, off, NoIndex)
  }

  function LoadSlot(d: Reg, off: int): Option<seq<Item>> {
    if FitsInt32(off) then Some([Ins(LoadI(W64, d, Slot(off)))]) else None
  }

  function StoreSlot(off: int, s: Reg): Option<seq<Item>> {
    if FitsInt32(off) then Some([Ins(StoreI(W64, Slot(off), s))]) else None
  }

  function DataLabel(name: string): string {
    "__data_" + name
  }

  function UserLabel(name: string): string {
    "__lbl_" + name
  }

  function Combine(op: BinOp): Item {
    match op
    case Plus => Ins(Alu(ADD, R11, R12))
    case Minus => Ins(Alu(SUB, R11, R12))
    case Times => Ins(Imul(R11, R12))
  }

  predicate Compound(e: Expr) {
    e.Bin?
  }

  /** `_eval`: code that leaves the value of `e` in `dst`. */
  function ExprCode(e: Expr, dst: Reg, c: Ctx): Option<seq<Item>> {
    match e
    case Num(v) => Some(Imm(dst, v))
    case RegName(n) => (match Resolve(n) case None => None case Some(r) => Some(Move(dst, r)))
    case Ident(n) =>
      if n in c.args then Some(Move(dst, c.args[n]))
      else if n in c.locals then LoadSlot(dst, c.locals[n])
      else if n in c.consts && n !in c.strings then Some(Imm(dst, c.consts[n]))
      else if n in c.data then Some([LeaTo(dst, DataLabel(n))])
      else if n in c.structs then Some(Imm(dst, c.structs[n].size))
      else None
    case FieldRef(s, f) =>
      if s in c.structs && f in c.structs[s].fields then Some(Imm(dst, c.structs[s].fields[f])) else None
    case Str(_) => None
    case Bin(op, l, r) =>
      var lc, rc := ExprCode(l, R11, c), ExprCode(r, R12, c);
      if lc.None? || rc.None? then None
      else Some(lc.value + [Ins(Push(R11))] + rc.value + ([Ins(Pop(R11)), Combine(op)] + Move(dst, R11)))
  }

  // ---- cpu: statements ----

  function Opt(a: Option<seq<Item>>, b: Option<seq<Item>>): Option<seq<Item>> {
    if a.None? || b.None? then None else Some(a.value + b.value)
  }

  predicate IsShift(op: CpuOp) {
    op in {ShlOp, ShrOp, SarOp, SalOp, RolOp, RorOp, RclOp, RcrOp}
  }

  function ShiftOf(op: CpuOp): ShiftOp
    requires IsShift(op)
  {
    match op
    case ShlOp | SalOp => SHL
    case ShrOp => SHR
    case SarOp => SAR
    case RolOp => ROL
    case RorOp => ROR
    case RclOp => RCL
    case RcrOp => RCR
  }

  predicate IsAlu(op: CpuOp) {
    op in {AddOp, SubOp, AndOp, OrOp, XorOp}
  }

  function AluOf(op: CpuOp): AluOp
    requires IsAlu(op)
    ensures Writes(AluOf(op))
  {
    match op
    case AddOp => ADD case SubOp => SUB case AndOp => AND case OrOp => OR case XorOp => XOR
  }

  /** A shift whose count is in a register goes through cl, saving rcx, or rax when rcx is shifted. */
  function ShiftByReg(op: ShiftOp, dst: Reg, v: Reg): seq<Item> {
    if dst == RCX then
      [Ins(Push(RAX))] + Move(RAX, RCX) + Move(RCX, v) + [Ins(ShiftCl(op, RAX))] + Move(RCX, RAX) + [Ins(Pop(RAX))]
    else
      [Ins(Push(RCX))] + Move(RCX, v) + [Ins(ShiftCl(op, dst))] + [Ins(Pop(RCX))]
  }

  function Division(dst: Reg, v: Reg, result: Reg): seq<Item> {
    [Ins(Push(RAX)), Ins(Push(RDX))] + (Move(RAX, dst) + [Ins(Cqo), Ins(Idiv(v))]) + Move(v, result) +
    ([Ins(Pop(RDX)), Ins(Pop(RAX))] + Move(dst, v))
  }

  /** The operation proper: combine `dst` with the operand already evaluated into `v`. */
  function Operate(op: CpuOp, dst: Reg, v: Reg, value: Expr): seq<Item>
    requires op != Set
  {
    if IsAlu(op) then [Ins(Alu(AluOf(op), dst, v))]
    else if op == MulOp then [Ins(Imul(dst, v))]
    else if IsShift(op) then
      if value.Num? then [Ins(ShiftImm(ShiftOf(op), dst, value.value % 64))] else ShiftByReg(ShiftOf(op), dst, v)
    else Division(dst, v, if op == ModOp then RDX else RAX)
  }

  /** `_cpu_bin`. A local destination works in r11 with the operand in r12, a register one with r15. */
  function CpuBinCode(op: CpuOp, dest: string, value: Expr, c: Ctx): Option<seq<Item>> {
    if dest in c.locals then
      var off := c.locals[dest];
      if op == Set then Opt(ExprCode(value, R11, c), StoreSlot(off, R11))
      else Opt(Opt(Opt(LoadSlot(R11, off), ExprCode(value, R12, c)), Some(Operate(op, R11, R12, value))),
               StoreSlot(off, R11))
    else
      match Resolve(dest)
      case None => None
      case Some(d) =>
        if op == Set then ExprCode(value, d, c)
        else Opt(ExprCode(value, SCRATCH, c), Some(Operate(op, d, SCRATCH, value)))
  }

  function UnaryOf(op: CpuUnaryOp): UnaryOp {
    match op case NotOp => NOT case NegOp => NEG case IncOp => INC case DecOp => DEC
  }

  function CpuUnaryCode(op: CpuUnaryOp, dest: string, c: Ctx): Option<seq<Item>> {
    if dest in c.locals then
      var off := c.locals[dest];
      Opt(Opt(LoadSlot(R11, off), Some([Ins(Unary(UnaryOf(op), R11))])), StoreSlot(off, R11))
    else
      match Resolve(dest) case None => None case Some(d) => Some([Ins(Unary(UnaryOf(op), d))])
  }

  /** `cmp`: both operands through r15, the left one parked on the stack, r11 saved around. */
  function CmpCode(left: Expr, right: Expr, c: Ctx): Option<seq<Item>> {
    Opt(Opt(Opt(Some([Ins(Push(R11))]), ExprCode(left, SCRATCH, c)),
            Opt(Some(Move(R11, SCRATCH) + [Ins(Push(R11))]), ExprCode(right, SCRATCH, c))),
        Some([Ins(Pop(R11)), Ins(Alu(CMP, R11, SCRATCH)), Ins(Pop(R11))]))
  }

  /** JCC_OPCODE, as the condition number in the low four opcode bits; None is a KeyError. */
  function CondCode(name: string): Option<Cc> {
    if name in {"o"} then Some(0)
    else if name in {"no"} then Some(1)
    else if name in {"below", "b", "c", "nae"} then Some(2)
    else if name in {"abe", "ae", "nb", "nc"} then Some(3)
    else if name in {"eq", "zf", "e", "z"} then Some(4)
    else if name in {"neq", "nz", "ne"} then Some(5)
    else if name in {"be", "ble", "na"} then Some(6)
    else if name in {"above", "a", "nbe"} then Some(7)
    else if name in {"s"} then Some(8)
    else if name in {"ns"} then Some(9)
    else if name in {"p", "pe"} then Some(10)
    else if name in {"np", "po"} then Some(11)
    else if name in {"lt", "l", "nge"} then Some(12)
    else if name in {"gte", "ge", "nl"} then Some(13)
    else if name in {"lte", "le", "ng"} then Some(14)
    else if name in {"gt", "g", "nle"} then Some(15)
    else None
  }

  // ---- argument marshalling ----

  function PushArgs(args: seq<Expr>, via: Reg, c: Ctx): Option<seq<Item>> {
    if args == [] then Some([])
    else
      var n := |args| - 1;
      Opt(PushArgs(args[..n], via, c), Opt(ExprCode(args[n], via, c), Some([Ins(Push(via))])))
  }

  function PopArgs(n: nat, targets: seq<Reg>): seq<Item>
    requires n <= |targets|
  {
    if n == 0 then [] else [Ins(Pop(targets[n - 1]))] + PopArgs(n - 1, targets)
  }

  function FirstSix(args: seq<Expr>): seq<Expr> {
    if |args| > 6 then args[..6] else args
  }

  function Marshal(args: seq<Expr>, via: Reg, targets: seq<Reg>, c: Ctx): Option<seq<Item>>
    requires |targets| == 6
  {
    var six := FirstSix(args);
    Opt(PushArgs(six, via, c), Some(PopArgs(|six|, targets)))
  }

  function CallCode(callee: string, args: seq<Expr>, c: Ctx): Option<seq<Item>> {
    Opt(Marshal(args, R11, CALL_ARGS, c), Some([CallTo(UserLabel(callee))]))
  }

  const NAMED_SYSCALLS: map<string, int> := map[
    "read" := 0, "write" := 1, "open" := 2, "close" := 3, "lseek" := 8, "seek" := 8, "mmap" := 9, "mprotect" := 10,
    "munmap" := 11, "exit" := 60, "exit_group" := 231, "getpid" := 39, "fork" := 57, "wait4" := 61, "nanosleep" := 35,
    "clock_gettime" := 228, "socket" := 41, "connect" := 42, "sendto" := 44, "recvfrom" := 45, "bind" := 49,
    "listen" := 50, "ioctl" := 16, "brk" := 12]

  /** A system call's number; an unknown name is an error. */
  function SysNumber(num: SysNum): Option<int> {
    match num
    case Numbered(n) => Some(n)
    case Named(s) => if Lower(s) in NAMED_SYSCALLS then Some(NAMED_SYSCALLS[Lower(s)]) else None
  }

  /** `sys:call`: marshal, load the number, and save rcx and r11 around the instruction.
      A bare-metal program has none. */
  function SyscallCode(num: SysNum, args: seq<Expr>, c: Ctx): Option<seq<Item>> {
    if c.bare then None
    else
      match SysNumber(num)
      case None => None
      case Some(number) =>
        Opt(Marshal(args, SCRATCH, SYSCALL_ARGS, c),
            Some(Imm(RAX, number) +
                 [Ins(Push(RCX)), Ins(Push(R11)), Ins(Syscall), Ins(Pop(R11)), Ins(Pop(RCX))]))
  }

  // ---- functions ----

  const CALLEE_SAVED: seq<Reg> := [RBX, R12, R13, R14]

  function Round8(size: nat): nat {
    (size + 7) / 8 * 8
  }

  function Round16(size: nat): nat {
    (size + 15) / 16 * 16
  }

  /** Bytes taken by the first locals, each rounded up to 8. */
  function LocalsSize(locals: seq<(string, nat)>): nat {
    if locals == [] then 0 else LocalsSize(locals[..|locals| - 1]) + Round8(locals[|locals| - 1].1)
  }

  /** rbp-relative slot of each local; a repeated name keeps its last slot. */
  function LocalSlots(locals: seq<(string, nat)>): map<string, int> {
    if locals == [] then map[]
    else LocalSlots(locals[..|locals| - 1])[locals[|locals| - 1].0 := -(32 + LocalsSize(locals))]
  }

  function PushAll(rs: seq<Reg>): seq<Item> {
    seq(|rs|, i requires 0 <= i < |rs| => Ins(Push(rs[i])))
  }

  /** Entry sequence; None when the frame does not fit a 32-bit immediate. */
  function Prologue(locals: seq<(string, nat)>): Option<seq<Item>> {
    var total := Round16(LocalsSize(locals));
    if !FitsInt32(total) then None
    else Some([Ins(Push(RBP)), Ins(MovRR(RBP, RSP))] + PushAll(CALLEE_SAVED) +
              (if total == 0 then [] else [Ins(AluImm(SUB, RSP, total))]))
  }

  /** `_fn_epilogue` without its final `ret`. */
  const RESTORE: seq<Item> :=
    [Ins(MovRR(RSP, RBP)), Ins(AluImm(SUB, RSP, 32)), Ins(Pop(R14)), Ins(Pop(R13)), Ins(Pop(R12)),
     Ins(Pop(RBX)), Ins(Pop(RBP))]

  // ---- statements ----

  /** `_emit` for the modelled statements; `inFn` selects the epilogue of a return. */
  function StmtCode(s: Stmt, c: Ctx, inFn: bool): Option<seq<Item>> {
    match s
    case Label(n) => Some([Lab(UserLabel(n))])
    case Goto(l) => Some([JmpTo(UserLabel(l))])
    case JumpIf(cond, l) =>
      (match CondCode(cond) case None => None case Some(cc) => Some([JccTo(cc, UserLabel(l))]))
    case Cmp(l, r) => CmpCode(l, r, c)
    case CpuBin(op, d, v) => CpuBinCode(op, d, v, c)
    case CpuUnary(op, d) => CpuUnaryCode(op, d, c)
    case CallFn(f, args) => CallCode(f, args, c)
    case SysCall(n, args) => SyscallCode(n, args, c)
    case Ret => Some((if inFn then RESTORE else []) + [Ins(Instr.Ret)])
    case RetVal(e) => Opt(ExprCode(e, RAX, c), Some((if inFn then RESTORE else []) + [Ins(Instr.Ret)]))
    case StackPush(e) => Opt(ExprCode(e, R11, c), Some([Ins(Push(R11))]))
    case StackPop(d) => (match Resolve(d) case None => None case Some(r) => Some([Ins(Pop(r))]))
  }

  function BodyCode(body: seq<Stmt>, c: Ctx, inFn: bool): Option<seq<Item>> {
    if body == [] then Some([])
    else Opt(BodyCode(body[..|body| - 1], c, inFn), StmtCode(body[|body| - 1], c, inFn))
  }

  datatype FnDef = FnDef(name: string, args: seq<string>, locals: seq<(string, nat)>, body: seq<Stmt>)

  function ArgRegs(args: seq<string>): map<string, Reg> {
    if args == [] then map[]
    else
      var n := |args| - 1;
      if n < |CALL_ARGS| then ArgRegs(args[..n])[args[n] := CALL_ARGS[n]] else ArgRegs(args[..n])
  }

  /** The context a function's body is compiled in. */
  function Inside(f: FnDef, c: Ctx): Ctx {
    c.(args := ArgRegs(f.args), locals := LocalSlots(f.locals))
  }

  /** `_emit_fn`: label, prologue, body, and an epilogue in case the body falls through. */
  function FnCode(f: FnDef, c: Ctx): Option<seq<Item>> {
    Opt(Opt(Opt(Some([Lab(UserLabel(f.name))]), Prologue(f.locals)),
            BodyCode(f.body, Inside(f, c), true)),
        Some(RESTORE + [Ins(Instr.Ret)]))
  }
}
