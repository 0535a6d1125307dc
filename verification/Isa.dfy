/** The x86-64 subset the code generator emits: instructions, ALU results and flags, execution. */
module Isa {
  import opened Wrappers
  import opened Words
  import opened Memory
  import opened Regs

  datatype Width = W8 | W16 | W32 | W64

  function Bytes(w: Width): nat {
    match w case W8 => 1 case W16 => 2 case W32 => 4 case W64 => 8
  }

  datatype Index = NoIndex | Idx(reg: Reg, scale: nat)

  datatype MemRef = MemRef(base: Reg, disp: int, index: Index)

  /** Register-register ALU operations, by opcode. `CMP` and `TEST` only set flags. */
  datatype AluOp = ADD | SUB | AND | OR | XOR | CMP | TEST

  datatype ShiftOp = ROL | ROR | RCL | RCR | SHL | SHR | SAR

  datatype UnaryOp = NOT | NEG | INC | DEC

  /** Condition codes, numbered as in the low four bits of the Jcc opcode. */
  type Cc = c: int | 0 <= c < 16

  datatype Instr =
    | MovImm(dst: Reg, imm: Word)
    | MovRR(dst: Reg, src: Reg)
    | LoadI(width: Width, dst: Reg, mem: MemRef)
    | StoreI(width: Width, mem: MemRef, src: Reg)
    | Alu(op: AluOp, dst: Reg, src: Reg)
    | AluImm(op: AluOp, dst: Reg, simm: int)
    | Imul(dst: Reg, src: Reg)
    | Idiv(src: Reg)
    | Cqo
    | Unary(uop: UnaryOp, dst: Reg)
    | ShiftImm(sop: ShiftOp, dst: Reg, count: nat)
    | ShiftCl(sop: ShiftOp, dst: Reg)
    | Push(src: Reg)
    | Pop(dst: Reg)
    | LeaRip(dst: Reg, rel: int)
    | Jmp(rel: int)
    | Jcc(cc: Cc, rel: int)
    | Call(rel: int)
    | Ret
    | Syscall

  datatype Flags = Flags(zf: Option<bool>, sf: Option<bool>, cf: Option<bool>, of: Option<bool>)

  const UNDEFINED: Flags := Flags(None, None, None, None)

  type RegFile = r: seq<Word> | |r| == 16 witness seq(16, _ => 0)

  datatype Machine = Machine(regs: RegFile, flags: Flags, mem: Mem) {
    function Set(r: Reg, v: Word): Machine {
      this.(regs := regs[r := v])
    }
  }

  // ---- ALU ----

  function AluResult(op: AluOp, a: Word, b: Word): Word {
    match op
    case ADD => Wrap(a + b)
    case SUB | CMP => Wrap(a - b)
    case AND | TEST => Logic(BitAnd, a, b)
    case OR => Logic(BitOr, a, b)
    case XOR => Logic(BitXor, a, b)
  }

  function AluFlags(op: AluOp, a: Word, b: Word): Flags {
    var r := AluResult(op, a, b);
    var zf, sf := Some(r == 0), Some(r >= TWO63);
    match op
    case ADD => Flags(zf, sf, Some(a + b >= TWO64), Some(!FitsSigned64(Signed(a) + Signed(b))))
    case SUB | CMP => Flags(zf, sf, Some(a < b), Some(!FitsSigned64(Signed(a) - Signed(b))))
    case AND | OR | XOR | TEST => Flags(zf, sf, Some(false), Some(false))
  }

  predicate Writes(op: AluOp) {
    op != CMP && op != TEST
  }

  function MulResult(a: Word, b: Word): Word {
    Wrap(a * b)
  }

  /** `imul r64, r64` leaves ZF and SF undefined; CF and OF report signed overflow. */
  function MulFlags(a: Word, b: Word): Flags {
    var over := Some(!FitsSigned64(Signed(a) * Signed(b)));
    Flags(None, None, over, over)
  }

  function UnaryResult(op: UnaryOp, a: Word): Word {
    match op
    case NOT => TWO64 - 1 - a
    case NEG => Wrap(0 - a)
    case INC => Wrap(a + 1)
    case DEC => Wrap(a - 1)
  }

  function UnaryFlags(op: UnaryOp, a: Word, f: Flags): Flags {
    var r := UnaryResult(op, a);
    var zf, sf := Some(r == 0), Some(r >= TWO63);
    match op
    case NOT => f
    case NEG => Flags(zf, sf, Some(a != 0), Some(a == TWO63))
    case INC => Flags(zf, sf, f.cf, Some(a == TWO63 - 1))
    case DEC => Flags(zf, sf, f.cf, Some(a == TWO63))
  }

  /** Rotate a `width`-bit value left. */
  function RotateLeft(x: nat, c: nat, width: nat): int
    requires c <= width
  {
    (x * Pow2(c)) % Pow2(width) + x / Pow2(width - c)
  }

  function RotateRight(x: nat, c: nat, width: nat): int
    requires c <= width
  {
    x / Pow2(c) + (x * Pow2(width - c)) % Pow2(width)
  }

  /** The 65-bit value CF:a that RCL and RCR rotate. */
  function WithCarry(a: Word, cf: bool): nat {
    a + if cf then TWO64 else 0
  }

  /** Result of a shift or rotate by c < 64; rotates through carry need a defined CF. */
  function ShiftResult(op: ShiftOp, a: Word, c: nat, f: Flags): Option<Word>
    requires c < 64
  {
    match op
    case SHL => Some(Wrap(a * Pow2(c)))
    case SHR => Some(Wrap(a / Pow2(c)))
    case SAR => Some(Wrap(Signed(a) / Pow2(c)))
    case ROL => Some(Wrap(RotateLeft(a, c, 64)))
    case ROR => Some(Wrap(RotateRight(a, c, 64)))
    case RCL => if f.cf.None? then None else Some(Wrap(RotateLeft(WithCarry(a, f.cf.value), c, 65)))
    case RCR => if f.cf.None? then None else Some(Wrap(RotateRight(WithCarry(a, f.cf.value), c, 65)))
  }

  function BitAt(a: nat, i: nat): bool {
    (a / Pow2(i)) % 2 == 1
  }

  /** A zero count changes no flag; OF is defined only for a count of one; rotates keep ZF and SF. */
  function ShiftFlags(op: ShiftOp, a: Word, c: nat, f: Flags): Flags
    requires c < 64 && ShiftResult(op, a, c, f).Some?
  {
    if c == 0 then f else
      var r := ShiftResult(op, a, c, f).value;
      var top := r >= TWO63;
      match op
      case SHL =>
        var cf := BitAt(a, 64 - c);
        Flags(Some(r == 0), Some(top), Some(cf), if c == 1 then Some(top != cf) else None)
      case SHR =>
        Flags(Some(r == 0), Some(top), Some(BitAt(a, c - 1)), if c == 1 then Some(a >= TWO63) else None)
      case SAR =>
        Flags(Some(r == 0), Some(top), Some((Signed(a) / Pow2(c - 1)) % 2 == 1), if c == 1 then Some(false) else None)
      case ROL =>
        var cf := r % 2 == 1;
        f.(cf := Some(cf), of := if c == 1 then Some(top != cf) else None)
      case ROR =>
        f.(cf := Some(top), of := if c == 1 then Some(top != BitAt(r, 62)) else None)
      case RCL =>
        var cf := RotateLeft(WithCarry(a, f.cf.value), c, 65) >= TWO64;
        f.(cf := Some(cf), of := if c == 1 then Some(top != cf) else None)
      case RCR =>
        var cf := RotateRight(WithCarry(a, f.cf.value), c, 65) >= TWO64;
        f.(cf := Some(cf), of := if c == 1 then Some((a >= TWO63) != f.cf.value) else None)
  }

  function Dividend(rdx: Word, rax: Word): int {
    Signed(rdx) * TWO64 + rax
  }

  /** Quotient and remainder of `idiv`; None is the divide error. */
  function Divide(rdx: Word, rax: Word, d: Word): Option<(Word, Word)> {
    if d == 0 then None else
      var q := TruncDiv(Dividend(rdx, rax), Signed(d));
      if FitsSigned64(q) then Some((Wrap(q), Wrap(TruncMod(Dividend(rdx, rax), Signed(d))))) else None
  }

  // ---- conditions ----

  function And2(a: Option<bool>, b: Option<bool>): Option<bool> {
    if a.Some? && b.Some? then Some(a.value && b.value) else None
  }

  function Differ(a: Option<bool>, b: Option<bool>): Option<bool> {
    if a.Some? && b.Some? then Some(a.value != b.value) else None
  }

  function Not(a: Option<bool>): Option<bool> {
    if a.Some? then Some(!a.value) else None
  }

  function Or2(a: Option<bool>, b: Option<bool>): Option<bool> {
    Not(And2(Not(a), Not(b)))
  }

  /** Whether a condition holds; None if it reads an undefined flag. The parity flag is not modelled. */
  function Holds(cc: Cc, f: Flags): Option<bool> {
    var base :=
      match cc / 2
      case 0 => f.of
      case 1 => f.cf
      case 2 => f.zf
      case 3 => Or2(f.cf, f.zf)
      case 4 => f.sf
      case 5 => None
      case 6 => Differ(f.sf, f.of)
      case _ => Or2(f.zf, Differ(f.sf, f.of));
    if cc % 2 == 0 then base else Not(base)
  }

  // ---- execution ----

  function Address(ref: MemRef, regs: RegFile): Word {
    Wrap(regs[ref.base] + ref.disp + if ref.index.Idx? then regs[ref.index.reg] * ref.index.scale else 0)
  }

  function LoadW(m: Mem, a: int, w: Width): Word {
    FromLEBound(ReadBytes(m, a, Bytes(w)));
    Pow256At();
    Load(m, a, Bytes(w))
  }

  function PushValue(m: Machine, v: Word): Machine {
    var sp := Wrap(m.regs[RSP] as int - 8);
    m.(regs := m.regs[RSP := sp], mem := Store64(m.mem, sp, v))
  }

  /** One instruction that falls through. None is a fault, or an instruction that transfers control. */
  function Exec(i: Instr, m: Machine): Option<Machine> {
    match i
    case MovImm(d, v) => Some(m.Set(d, v))
    case MovRR(d, s) => Some(m.Set(d, m.regs[s]))
    case LoadI(w, d, ref) => Some(m.Set(d, LoadW(m.mem, Address(ref, m.regs), w)))
    case StoreI(w, ref, s) => Some(m.(mem := Store(m.mem, Address(ref, m.regs), Bytes(w), m.regs[s])))
    case Alu(op, d, s) =>
      var a, b := m.regs[d], m.regs[s];
      var m' := m.(flags := AluFlags(op, a, b));
      Some(if Writes(op) then m'.Set(d, AluResult(op, a, b)) else m')
    case AluImm(op, d, v) =>
      var a, b := m.regs[d], Wrap(v);
      var m' := m.(flags := AluFlags(op, a, b));
      Some(if Writes(op) then m'.Set(d, AluResult(op, a, b)) else m')
    case Imul(d, s) =>
      var a, b := m.regs[d], m.regs[s];
      Some(m.(flags := MulFlags(a, b)).Set(d, MulResult(a, b)))
    case Idiv(s) =>
      var qr := Divide(m.regs[RDX], m.regs[RAX], m.regs[s]);
      if qr.None? then None
      else Some(m.(flags := UNDEFINED).Set(RAX, qr.value.0).Set(RDX, qr.value.1))
    case Cqo => Some(m.Set(RDX, if m.regs[RAX] >= TWO63 then TWO64 - 1 else 0))
    case Unary(op, d) =>
      Some(m.(flags := UnaryFlags(op, m.regs[d], m.flags)).Set(d, UnaryResult(op, m.regs[d])))
    case ShiftImm(op, d, c) => ExecShift(op, d, c % 64, m)
    case ShiftCl(op, d) => ExecShift(op, d, m.regs[RCX] % 64, m)
    case Push(s) => Some(PushValue(m, m.regs[s]))
    case Pop(d) =>
      var sp: int := m.regs[RSP];
      Some(m.Set(RSP, Wrap(sp + 8)).Set(d, Load64(m.mem, sp)))
    case LeaRip(_, _) | Jmp(_) | Jcc(_, _) | Call(_) | Ret | Syscall => None
  }

  function ExecShift(op: ShiftOp, d: Reg, c: nat, m: Machine): Option<Machine>
    requires c < 64
  {
    var r := ShiftResult(op, m.regs[d], c, m.flags);
    if r.None? then None
    else Some(m.(flags := ShiftFlags(op, m.regs[d], c, m.flags)).Set(d, r.value))
  }
}
