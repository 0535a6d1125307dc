/** Instruction bytes, as ACLM/x64enc.py chooses them, and a decoder written from the
    Intel SDM Vol. 2A, sections 2.1 (ModR/M, SIB) and 2.2.1 (REX). */
module Encoding {
  import opened Wrappers
  import opened Words
  import opened Regs
  import opened Isa

  // ---- encoder ----

  function RexByte(w: nat, r: nat, x: nat, b: nat): (v: Byte)
    requires w < 2 && r < 2 && x < 2 && b < 2
    ensures 0x40 <= v < 0x50
    ensures v / 8 == 8 + w && (v / 4) % 2 == r && (v / 2) % 2 == x && v % 2 == b
  {
    0x40 + 8 * w + 4 * r + 2 * x + b
  }

  function ModRM(mod: nat, reg: nat, rm: nat): (v: Byte)
    requires mod < 4 && reg < 8 && rm < 8
    ensures v / 64 == mod && (v / 8) % 8 == reg && v % 8 == rm
  {
    DivModUnique(64 * mod + 8 * reg + rm, 64, mod, 8 * reg + rm);
    DivModUnique(64 * mod + 8 * reg + rm, 8, 8 * mod + reg, rm);
    DivModUnique(8 * mod + reg, 8, mod, reg);
    64 * mod + 8 * reg + rm
  }

  /** `_s32`: the two's complement bytes of a value already known to fit. */
  function S32(v: int): seq<Byte>
    requires FitsInt32(v)
  {
    LE(v % TWO32, 4)
  }

  predicate LegalScale(s: nat) {
    s == 1 || s == 2 || s == 4 || s == 8
  }

  function ScaleBits(s: nat): nat
    requires LegalScale(s)
  {
    if s == 1 then 0 else if s == 2 then 1 else if s == 4 then 2 else 3
  }

  /** What every memory operand of the source satisfies; rsp cannot be an index (see RspIndexLost). */
  predicate EncodableRef(m: MemRef) {
    FitsInt32(m.disp) && (m.index.Idx? ==> LegalScale(m.index.scale))
  }

  predicate LegalRef(m: MemRef) {
    EncodableRef(m) && (m.index.Idx? ==> m.index.reg != RSP)
  }

  function UsesSib(m: MemRef): bool {
    m.index.Idx? || m.base % 8 == 4
  }

  function RexX(m: MemRef): nat {
    if m.index.Idx? then m.index.reg / 8 else 0
  }

  function SibBytes(m: MemRef): seq<Byte>
    requires m.index.Idx? ==> LegalScale(m.index.scale)
  {
    if m.index.Idx? then [ModRM(ScaleBits(m.index.scale), m.index.reg % 8, m.base % 8)]
    else if m.base % 8 == 4 then [ModRM(0, 4, m.base % 8)]
    else []
  }

  /** ModRM, SIB and displacement: mod 10 unless the displacement is zero and the base allows mod 00. */
  function RefBytes(reg: Reg, m: MemRef): seq<Byte>
    requires EncodableRef(m)
  {
    var mod := if m.disp != 0 || m.base % 8 == 5 then 2 else 0;
    [ModRM(mod, reg % 8, if UsesSib(m) then 4 else m.base % 8)] + SibBytes(m) +
    (if mod == 2 then S32(m.disp) else [])
  }

  function RefRex(w: nat, reg: Reg, m: MemRef): Byte
    requires w < 2
  {
    RexByte(w, reg / 8, RexX(m), m.base / 8)
  }

  /** Prefixes and opcode of a load; 8- and 16-bit loads zero-extend. */
  function LoadHead(w: Width, d: Reg, m: MemRef): seq<Byte> {
    match w
    case W64 => [RefRex(1, d, m), 0x8B]
    case W32 => (if d >= 8 || m.base >= 8 || RexX(m) == 1 then [RefRex(0, d, m)] else []) + [0x8B]
    case W16 => [RefRex(1, d, m), 0x0F, 0xB7]
    case W8 => [RefRex(1, d, m), 0x0F, 0xB6]
  }

  /** Prefixes and opcode of a store; a byte store of spl, bpl, sil or dil needs a REX prefix. */
  function StoreHead(w: Width, m: MemRef, s: Reg): seq<Byte> {
    match w
    case W64 => [RefRex(1, s, m), 0x89]
    case W32 => [RefRex(0, s, m), 0x89]
    case W16 => [0x66, RefRex(0, s, m), 0x89]
    case W8 =>
      (if 4 <= s < 8 || s >= 8 || m.base >= 8 || RexX(m) == 1 then [RefRex(0, s, m)] else []) + [0x88]
  }

  function LoadBytes(w: Width, d: Reg, m: MemRef): seq<Byte>
    requires EncodableRef(m)
  {
    LoadHead(w, d, m) + RefBytes(d, m)
  }

  function StoreBytes(w: Width, m: MemRef, s: Reg): seq<Byte>
    requires EncodableRef(m)
  {
    StoreHead(w, m, s) + RefBytes(s, m)
  }

  function AluOpcode(op: AluOp): Byte {
    match op
    case ADD => 0x01 case SUB => 0x29 case AND => 0x21 case OR => 0x09
    case XOR => 0x31 case CMP => 0x39 case TEST => 0x85
  }

  /** Opcode extension of the 81 /ext group; `test` is not in it. */
  function AluExt(op: AluOp): nat
    requires op != TEST
    ensures AluExt(op) < 8
  {
    match op
    case ADD => 0 case OR => 1 case AND => 4 case SUB => 5 case XOR => 6 case CMP => 7
  }

  function ShiftExt(op: ShiftOp): nat
    ensures ShiftExt(op) < 8
  {
    match op
    case ROL => 0 case ROR => 1 case RCL => 2 case RCR => 3 case SHL => 4 case SHR => 5 case SAR => 7
  }

  function UnaryBytes(op: UnaryOp, d: Reg): seq<Byte> {
    match op
    case NOT => [RexByte(1, 0, 0, d / 8), 0xF7, ModRM(3, 2, d % 8)]
    case NEG => [RexByte(1, 0, 0, d / 8), 0xF7, ModRM(3, 3, d % 8)]
    case INC => [RexByte(1, 0, 0, d / 8), 0xFF, ModRM(3, 0, d % 8)]
    case DEC => [RexByte(1, 0, 0, d / 8), 0xFF, ModRM(3, 1, d % 8)]
  }

  /** `mov_reg_imm64`: the shortest of three forms, or always the 10-byte one when `wide`. */
  function MovImmBytes(d: Reg, imm: Word, wide: bool): seq<Byte> {
    if wide then [RexByte(1, 0, 0, d / 8), 0xB8 + d % 8] + LE(imm, 8)
    else if imm < TWO32 then (if d >= 8 then [0x41] else []) + [0xB8 + d % 8] + LE(imm, 4)
    else if imm >= TWO64 - TWO31 then [RexByte(1, 0, 0, d / 8), 0xC7, ModRM(3, 0, d % 8)] + LE(imm % TWO32, 4)
    else [RexByte(1, 0, 0, d / 8), 0xB8 + d % 8] + LE(imm, 8)
  }

  /** Operands the encoder accepts without raising, and that it encodes faithfully. */
  predicate Legal(i: Instr) {
    match i
    case LoadI(_, _, m) => LegalRef(m)
    case StoreI(_, m, _) => LegalRef(m)
    case AluImm(op, _, v) => op != TEST && FitsInt32(v)
    case ShiftImm(_, _, c) => c < 64
    case LeaRip(_, rel) => FitsInt32(rel)
    case Jmp(rel) => FitsInt32(rel)
    case Jcc(_, rel) => FitsInt32(rel)
    case Call(rel) => FitsInt32(rel)
    case _ => true
  }

  function Encode(i: Instr, wide: bool): seq<Byte>
    requires Legal(i)
  {
    match i
    case MovImm(d, v) => MovImmBytes(d, v, wide)
    case MovRR(d, s) => [RexByte(1, s / 8, 0, d / 8), 0x89, ModRM(3, s % 8, d % 8)]
    case LoadI(w, d, m) => LoadBytes(w, d, m)
    case StoreI(w, m, s) => StoreBytes(w, m, s)
    case Alu(op, d, s) => [RexByte(1, s / 8, 0, d / 8), AluOpcode(op), ModRM(3, s % 8, d % 8)]
    case AluImm(op, d, v) => [RexByte(1, 0, 0, d / 8), 0x81, ModRM(3, AluExt(op), d % 8)] + S32(v)
    case Imul(d, s) => [RexByte(1, d / 8, 0, s / 8), 0x0F, 0xAF, ModRM(3, d % 8, s % 8)]
    case Idiv(s) => [RexByte(1, 0, 0, s / 8), 0xF7, ModRM(3, 7, s % 8)]
    case Cqo => [0x48, 0x99]
    case Unary(op, d) => UnaryBytes(op, d)
    case ShiftImm(op, d, c) => [RexByte(1, 0, 0, d / 8), 0xC1, ModRM(3, ShiftExt(op), d % 8), c]
    case ShiftCl(op, d) => [RexByte(1, 0, 0, d / 8), 0xD3, ModRM(3, ShiftExt(op), d % 8)]
    case Push(r) => (if r >= 8 then [0x41] else []) + [0x50 + r % 8]
    case Pop(r) => (if r >= 8 then [0x41] else []) + [0x58 + r % 8]
    case LeaRip(d, rel) => [RexByte(1, d / 8, 0, 0), 0x8D, ModRM(0, d % 8, 5)] + S32(rel)
    case Jmp(rel) => [0xE9] + S32(rel)
    case Jcc(cc, rel) => [0x0F, 0x80 + cc] + S32(rel)
    case Call(rel) => [0xE8] + S32(rel)
    case Ret => [0xC3]
    case Syscall => [0x0F, 0x05]
  }

  // ---- decoder ----

  datatype Prefix = Prefix(size16: bool, rex: bool, w: nat, r: nat, x: nat, b: nat, len: nat)

  function ReadRex(c: seq<Byte>, i: nat, size16: bool): (p: Prefix)
    ensures p.w < 2 && p.r < 2 && p.x < 2 && p.b < 2 && p.len <= i + 1
  {
    if i < |c| && 0x40 <= c[i] < 0x50 then
      Prefix(size16, true, (c[i] / 8) % 2, (c[i] / 4) % 2, (c[i] / 2) % 2, c[i] % 2, i + 1)
    else Prefix(size16, false, 0, 0, 0, 0, i)
  }

  function ReadPrefix(c: seq<Byte>): (p: Prefix)
    ensures p.w < 2 && p.r < 2 && p.x < 2 && p.b < 2 && p.len <= 2
  {
    if |c| > 0 && c[0] == 0x66 then ReadRex(c, 1, true) else ReadRex(c, 0, false)
  }

  datatype Operand = RegOp(reg: Reg) | MemOp(ref: MemRef) | RipOp(rel: int)

  /** `next` is the position after the operand. */
  datatype Decoded = Decoded(reg: Reg, rm: Operand, next: nat)

  function SignedLE32(v: nat): int {
    if v < TWO31 then v else v - TWO32
  }

  function ReadS32(c: seq<Byte>, i: nat): Option<int> {
    if i + 4 <= |c| then Some(SignedLE32(FromLE(c[i..i + 4]))) else None
  }

  function SignByte(b: Byte): int {
    if b < 128 then b else b - 256
  }

  function ScaleOf(bits: nat): nat
    requires bits < 4
  {
    if bits == 0 then 1 else if bits == 1 then 2 else if bits == 2 then 4 else 8
  }

  /** Displacement after ModRM/SIB: none, 8 bits or 32 bits, by mod. */
  function ReadDisp(c: seq<Byte>, i: nat, mod: nat): Option<(int, nat)> {
    if mod == 0 then Some((0, i))
    else if mod == 1 then (if i < |c| then Some((SignByte(c[i]), i + 1)) else None)
    else var d := ReadS32(c, i); if d.None? then None else Some((d.value, i + 4))
  }

  function DecodeRM(c: seq<Byte>, i: nat, p: Prefix): Option<Decoded>
    requires p.r < 2 && p.x < 2 && p.b < 2
  {
    if i >= |c| then None else
      var mod, reg, rm := c[i] / 64, (c[i] / 8) % 8 + 8 * p.r, c[i] % 8;
      if mod == 3 then Some(Decoded(reg, RegOp(rm + 8 * p.b), i + 1))
      else if rm == 4 then
        if i + 1 >= |c| then None else
          var sib := c[i + 1];
          var index := (sib / 8) % 8 + 8 * p.x;
          var idx := if index == RSP then NoIndex else Idx(index, ScaleOf(sib / 64));
          if mod == 0 && sib % 8 == 5 then None   // absolute disp32, never emitted
          else
            var d := ReadDisp(c, i + 2, mod);
            if d.None? then None
            else Some(Decoded(reg, MemOp(MemRef(sib % 8 + 8 * p.b, d.value.0, idx)), d.value.1))
      else if mod == 0 && rm == 5 then
        var d := ReadS32(c, i + 1);
        if d.None? then None else Some(Decoded(reg, RipOp(d.value), i + 5))
      else
        var d := ReadDisp(c, i + 1, mod);
        if d.None? then None
        else Some(Decoded(reg, MemOp(MemRef(rm + 8 * p.b, d.value.0, NoIndex)), d.value.1))
  }

  function AluOfOpcode(b: Byte): Option<AluOp> {
    if b == 0x01 then Some(ADD) else if b == 0x29 then Some(SUB) else if b == 0x21 then Some(AND)
    else if b == 0x09 then Some(OR) else if b == 0x31 then Some(XOR) else if b == 0x39 then Some(CMP)
    else if b == 0x85 then Some(TEST) else None
  }

  function AluOfExt(e: nat): Option<AluOp> {
    if e == 0 then Some(ADD) else if e == 1 then Some(OR) else if e == 4 then Some(AND)
    else if e == 5 then Some(SUB) else if e == 6 then Some(XOR) else if e == 7 then Some(CMP) else None
  }

  function ShiftOfExt(e: nat): Option<ShiftOp> {
    if e == 0 then Some(ROL) else if e == 1 then Some(ROR) else if e == 2 then Some(RCL)
    else if e == 3 then Some(RCR) else if e == 4 then Some(SHL) else if e == 5 then Some(SHR)
    else if e == 7 then Some(SAR) else None
  }

  function Rel(c: seq<Byte>, i: nat, make: int -> Instr): Option<(Instr, nat)> {
    var d := ReadS32(c, i);
    if d.None? then None else Some((make(d.value), i + 4))
  }

  /** Decode one instruction; the second component is its length. */
  function Decode(c: seq<Byte>): Option<(Instr, nat)> {
    var p := ReadPrefix(c);
    // the operand-size prefix is only ever emitted in front of a store
    if p.len >= |c| || (p.size16 && c[p.len] != 0x89) then None else DecodeOp(c, p, c[p.len])
  }

  function DecodeOp(c: seq<Byte>, p: Prefix, op: Byte): Option<(Instr, nat)>
    requires p.w < 2 && p.r < 2 && p.x < 2 && p.b < 2
  {
    var i := p.len + 1;
    if op == 0x0F then DecodeTwoByte(c, p, i)
    else if op == 0xC3 then Some((Ret, i))
    else if op == 0xE9 then Rel(c, i, v => Jmp(v))
    else if op == 0xE8 then Rel(c, i, v => Call(v))
    else if op == 0x99 then (if p.w == 1 then Some((Cqo, i)) else None)
    else if 0x50 <= op < 0x58 then Some((Push(op - 0x50 + 8 * p.b), i))
    else if 0x58 <= op < 0x60 then Some((Pop(op - 0x58 + 8 * p.b), i))
    else if 0xB8 <= op < 0xC0 then
      var n := if p.w == 1 then 8 else 4;
      if i + n > |c| then None else
        FromLEBound(c[i..i + n]);
        Pow256At();
        Some((MovImm(op - 0xB8 + 8 * p.b, FromLE(c[i..i + n])), i + n))
    else
      var d := DecodeRM(c, i, p);
      if d.None? then None else DecodeRmOp(c, p, op, d.value)
  }

  function DecodeTwoByte(c: seq<Byte>, p: Prefix, i: nat): Option<(Instr, nat)>
    requires p.w < 2 && p.r < 2 && p.x < 2 && p.b < 2
  {
    if i >= |c| then None
    else if c[i] == 0x05 then Some((Syscall, i + 1))
    else if 0x80 <= c[i] < 0x90 then var cc: Cc := c[i] - 0x80; Rel(c, i + 1, v => Jcc(cc, v))
    else
      var d := DecodeRM(c, i + 1, p);
      if d.None? || p.w == 0 then None
      else match d.value
        case Decoded(reg, RegOp(s), next) => if c[i] == 0xAF then Some((Imul(reg, s), next)) else None
        case Decoded(reg, MemOp(m), next) =>
          if c[i] == 0xB6 then Some((LoadI(W8, reg, m), next))
          else if c[i] == 0xB7 then Some((LoadI(W16, reg, m), next))
          else None
        case _ => None
  }

  function DecodeRmOp(c: seq<Byte>, p: Prefix, op: Byte, d: Decoded): Option<(Instr, nat)> {
    match d.rm
    case RipOp(rel) => if op == 0x8D && p.w == 1 then Some((LeaRip(d.reg, rel), d.next)) else None
    case MemOp(m) =>
      if op == 0x8B then Some((LoadI(if p.w == 1 then W64 else W32, d.reg, m), d.next))
      else if op == 0x89 then Some((StoreI(if p.w == 1 then W64 else if p.size16 then W16 else W32, m, d.reg), d.next))
      else if op == 0x88 && (p.rex || d.reg < 4) then Some((StoreI(W8, m, d.reg), d.next))
      else None
    case RegOp(r) => if p.w == 0 then None else DecodeRegOp(c, op, d.reg, r, d.next)
  }

  /** 64-bit register forms; for the group opcodes the ModRM reg field selects the operation. */
  function DecodeRegOp(c: seq<Byte>, op: Byte, reg: Reg, r: Reg, next: nat): Option<(Instr, nat)> {
    if op == 0x89 then Some((MovRR(r, reg), next))
    else if AluOfOpcode(op).Some? then Some((Alu(AluOfOpcode(op).value, r, reg), next))
    else if op == 0x81 then
      var v := ReadS32(c, next);
      if AluOfExt(reg % 8).None? || v.None? then None
      else Some((AluImm(AluOfExt(reg % 8).value, r, v.value), next + 4))
    else if op == 0xC7 then
      var v := ReadS32(c, next);
      if reg % 8 != 0 || v.None? then None else Some((MovImm(r, Wrap(v.value)), next + 4))
    else if op == 0xF7 then
      if reg % 8 == 2 then Some((Unary(NOT, r), next))
      else if reg % 8 == 3 then Some((Unary(NEG, r), next))
      else if reg % 8 == 7 then Some((Idiv(r), next))
      else None
    else if op == 0xFF then
      if reg % 8 == 0 then Some((Unary(INC, r), next))
      else if reg % 8 == 1 then Some((Unary(DEC, r), next))
      else None
    else if op == 0xC1 then
      if ShiftOfExt(reg % 8).None? || next >= |c| then None
      else Some((ShiftImm(ShiftOfExt(reg % 8).value, r, c[next] % 64), next + 1))
    else if op == 0xD3 then
      if ShiftOfExt(reg % 8).None? then None else Some((ShiftCl(ShiftOfExt(reg % 8).value, r), next))
    else None
  }
}
