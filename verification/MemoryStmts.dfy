/** `ram:` stores with a constant offset, and the compare-and-swap gate: what they do for any operands,
    and when it is right. */
module MemoryStmts {
  import opened Wrappers
  import opened Words
  import opened Memory
  import opened Regs
  import opened Isa
  import opened Assembly
  import opened Ast
  import opened Codegen
  import opened Semantics
  import opened ExprProofs
  import opened StmtProofs
  import opened MachineSteps

  // ---- constant offsets ----

  /** `_resolve_offset`: numbers, struct fields and their combinations; None is the error of anything else. */
  function ResolveOffset(e: Expr, structs: map<string, Struct>): Option<int> {
    match e
    case Num(v) => Some(v)
    case FieldRef(s, f) => if s in structs && f in structs[s].fields then Some(structs[s].fields[f]) else None
    case Bin(op, l, r) =>
      (match ResolveOffset(l, structs)
       case None => None
       case Some(a) => match ResolveOffset(r, structs) case None => None case Some(b) => Some(Apply(op, a, b)))
    case _ => None
  }

  /** A resolved offset is the value the same expression would have at run time, in every state. */
  lemma {:induction false} OffsetIsValue(e: Expr, c: Ctx, m: Machine, syms: Syms)
    requires ResolveOffset(e, c.structs).Some?
    ensures ResolveOffset(e, c.structs).value == Value(e, c, m, syms)
    ensures !ReadsR12(e)
  {
    if e.Bin? {
      OffsetIsValue(e.left, c, m, syms);
      OffsetIsValue(e.right, c, m, syms);
    }
  }

  // ---- store ----

  /** A base operand: a register, a local holding the address, or a data name. */
  datatype Base = InReg(name: string) | Named(name: string)

  /** `_base_reg`: the register the address ends up in, and the code that puts it there. */
  function BaseCode(b: Base, c: Ctx): Option<(Reg, seq<Item>)> {
    match b
    case InReg(n) => (match Resolve(n) case None => None case Some(r) => Some((r, [])))
    case Named(n) =>
      if n in c.locals then (match LoadSlot(R13, c.locals[n]) case None => None case Some(code) => Some((R13, code)))
      else Some((R11, [LeaTo(R11, DataLabel(n))]))
  }

  /** `_mem_store` without an index. */
  function StoreCode(width: Width, b: Base, off: int, value: Expr, c: Ctx): Option<seq<Item>> {
    match ExprCode(value, R12, c)
    case None => None
    case Some(vc) =>
      match BaseCode(b, c)
      case None => None
      case Some(p) =>
        if !FitsInt32(off) then None
        else Some([Ins(Push(R12))] + (vc + (p.1 + [Ins(StoreI(width, At(p.0, off), R12)), Ins(Pop(R12))])))
  }

  /** The base address the operand stands for before the statement. */
  function BaseValue(b: Base, c: Ctx, m: Machine, syms: Syms): Word {
    match b
    case InReg(n) => (match Resolve(n) case None => 0 case Some(r) => m.regs[r])
    case Named(n) =>
      if n in c.locals then Load64(m.mem, Wrap(m.regs[RBP] + c.locals[n]))
      else if DataLabel(n) in syms then syms[DataLabel(n)] else 0
  }

  /** The base address the store uses: the value has already replaced r12. */
  function BaseSeen(b: Base, v: Word, c: Ctx, m: Machine, syms: Syms): Word {
    if InR12(b) then v else BaseValue(b, c, m, syms)
  }

  predicate InR12(b: Base) {
    b.InReg? && Resolve(b.name) == Some(R12)
  }

  function StoreAddress(b: Base, off: int, v: Word, c: Ctx, m: Machine, syms: Syms): Word {
    Wrap(BaseSeen(b, v, c, m, syms) + off)
  }

  /** A local that holds the base lies at or above rsp; a data name has an address. */
  ghost predicate BaseReadable(b: Base, c: Ctx, m: Machine, syms: Syms) {
    b.Named? ==>
      if b.name in c.locals then Wrap(m.regs[RBP] + c.locals[b.name]) >= m.regs[RSP] else DataLabel(b.name) in syms
  }

  /** Registers a store may change: r11 for a compound value or a data name, r13 for a base kept in a local. */
  predicate StoreKeeps(r: Reg, b: Base, value: Expr, c: Ctx) {
    && (r == R11 ==> !Compound(value) && (b.Named? ==> b.name in c.locals))
    && (r == R13 ==> !(b.Named? && b.name in c.locals))
  }

  /** r12 as the store leaves it: the word pushed for it, with what the store has written into that. */
  function R12Back(m: Mem, sp: int, was: Word, at: int, n: nat, v: nat): Word {
    Load64(Store(Store64(m, sp - 8, was), at, n, v), sp - 8)
  }

  /** A store of any operand through any base, to any address: it writes the low bytes of what it sees to the address
      it sees, and nothing else at or above rsp; every user register but r12 and the base of a local is kept, and
      r12 too unless the store hits the stack word it is saved in. */
  lemma StoreRuns(width: Width, b: Base, off: int, value: Expr, c: Ctx, m: Machine, syms: Syms) returns (t: Machine)
    requires WellFormed(c) && StoreCode(width, b, off, value, c).Some? && BaseReadable(b, c, m, syms)
    requires Readable(value, c, m, m.regs[RSP], syms) && 8 * Depth(value) + 8 <= m.regs[RSP]
    ensures Run(StoreCode(width, b, off, value, c).value, m, syms) == Some(t)
    ensures forall r: Reg | r != R12 && StoreKeeps(r, b, value, c) :: t.regs[r] == m.regs[r]
    ensures var v := Seen(value, m.regs[R12], c, m, syms);
            var at := StoreAddress(b, off, v, c, m, syms);
            && t.regs[R12] == R12Back(m.mem, m.regs[RSP], m.regs[R12], at, Bytes(width), v)
            && (m.regs[RSP] <= at || at + Bytes(width) <= m.regs[RSP] as int - 8 ==> t.regs[R12] == m.regs[R12])
    ensures var v := Seen(value, m.regs[R12], c, m, syms);
            var at := StoreAddress(b, off, v, c, m, syms);
            && Load(t.mem, at, Bytes(width)) == v % Pow256(Bytes(width))
            && (forall a: int | a >= m.regs[RSP] || (!Compound(value) && a < m.regs[RSP] as int - 8) ::
                  Rd(t.mem, a) == Rd(Store(m.mem, at, Bytes(width), v), a))
  {
    hide Run, Load64, Store, Load, PushValue, Seen, SeenFlags, R12After, Readable, ExprCode, Resolve, WellFormed, Depth,
      BaseReadable, BaseValue, LoadSlot, LE;
    var v := Seen(value, m.regs[R12], c, m, syms);
    var at := StoreAddress(b, off, v, c, m, syms);
    var vc, p := ExprCode(value, R12, c).value, BaseCode(b, c).value;
    var m1, m2 := ValueInR12(value, c, m, syms);
    var m3 := BaseRuns(b, v, c, m, m2, syms);
    t := StoreTail(width, p.0, off, v, at, m, m3, syms);
    var tail := [Ins(StoreI(width, At(p.0, off), R12)), Ins(Pop(R12))];
    Then(p.1, tail, m2, m3, syms);
    Then(vc, p.1 + tail, m1, m2, syms);
    Then([Ins(Push(R12))], vc + (p.1 + tail), m, m1, syms);
    StoreElsewhere(m.mem, m3.mem, at, Bytes(width), v);
    SavedBack(m, m3.mem, at, Bytes(width), v);
  }

  /** The word popped for r12. */
  lemma SavedBack(m: Machine, last: Mem, at: int, n: nat, v: nat)
    requires m.regs[RSP] >= 8 && Load64(last, m.regs[RSP] as int - 8) == m.regs[R12]
    ensures Load64(Store(last, at, n, v), m.regs[RSP] as int - 8) ==
            R12Back(m.mem, m.regs[RSP], m.regs[R12], at, n, v)
    ensures m.regs[RSP] <= at || at + n <= m.regs[RSP] as int - 8 ==>
              R12Back(m.mem, m.regs[RSP], m.regs[R12], at, n, v) == m.regs[R12]
  {
    hide Load64, Store64, Store;
    var a: int := m.regs[RSP] as int - 8;
    var saved := Store64(m.mem, a, m.regs[R12]);
    LoadStore64(m.mem, a, m.regs[R12]);
    SameWord(saved, last, a);
    StoreElsewhere(saved, last, at, n, v);
    Load64Same(Store(saved, at, n, v), Store(last, at, n, v), a);
    StoreFrame(saved, at, n, v);
    if m.regs[RSP] <= at || at + n <= a { Load64Same(saved, Store(saved, at, n, v), a); }
  }

  /** Equal words are equal bytes. */
  lemma SameWord(a: Mem, b: Mem, at: int)
    requires Load64(a, at) == Load64(b, at)
    ensures forall x | at <= x < at + 8 :: Rd(a, x) == Rd(b, x)
  {
    hide FromLE, LE;
    var p, q := ReadBytes(a, at, 8), ReadBytes(b, at, 8);
    LEOfFromLE(p);
    LEOfFromLE(q);
    assert p == q;
    forall x | at <= x < at + 8
      ensures Rd(a, x) == Rd(b, x)
    {
      assert p[x - at] == Rd(a, x) && q[x - at] == Rd(b, x);
    }
  }

  /** The store, and r12 back from the stack. */
  lemma StoreTail(width: Width, r: Reg, off: int, v: Word, at: Word, m: Machine, m3: Machine,
                  syms: Syms) returns (t: Machine)
    requires at == Wrap(m3.regs[r] as int + off) && m3.regs[R12] == v && m.regs[RSP] >= 8 &&
             m3.regs[RSP] == m.regs[RSP] - 8
    ensures Run([Ins(StoreI(width, At(r, off), R12)), Ins(Pop(R12))], m3, syms) == Some(t)
    ensures t.mem == Store(m3.mem, at, Bytes(width), v) && Load(t.mem, at, Bytes(width)) == v % Pow256(Bytes(width))
    ensures t.regs == m3.regs[RSP := m.regs[RSP]][R12 := Load64(t.mem, m.regs[RSP] as int - 8)]
  {
    hide Run, Load64, Store, Load;
    var sp: int := m.regs[RSP];
    var m4 := m3.(mem := Store(m3.mem, at, Bytes(width), v));
    StoreGoes(width, r, off, m3, at, syms);
    LoadStoreSame(m3.mem, at, Bytes(width), v);
    PopWord(m4, R12, syms);
    t := m4.(regs := m4.regs[RSP := sp][R12 := Load64(m4.mem, sp - 8)]);
    hide Step;
    Run2(Ins(StoreI(width, At(r, off), R12)), Ins(Pop(R12)), m3, syms);
  }

  /** r12 saved, then the value evaluated into it. */
  lemma ValueInR12(value: Expr, c: Ctx, m: Machine, syms: Syms) returns (m1: Machine, m2: Machine)
    requires WellFormed(c) && ExprCode(value, R12, c).Some?
    requires Readable(value, c, m, m.regs[RSP], syms) && 8 * Depth(value) + 8 <= m.regs[RSP]
    ensures Run([Ins(Push(R12))], m, syms) == Some(m1) && Run(ExprCode(value, R12, c).value, m1, syms) == Some(m2)
    ensures m2.regs[R12] == Seen(value, m.regs[R12], c, m, syms) && m2.regs[RSP] == m.regs[RSP] - 8
    ensures Load64(m2.mem, m.regs[RSP] as int - 8) == m.regs[R12] && SameFrom(m.mem, m2.mem, m.regs[RSP])
    ensures !Compound(value) ==> SameOutside(m.mem, m2.mem, m.regs[RSP] as int - 8, m.regs[RSP])
    ensures forall r: Reg | r != R12 && r != RSP && (r == R11 ==> !Compound(value)) :: m2.regs[r] == m.regs[r]
  {
    hide Run, Load64, PushValue, Seen, SeenFlags, R12After, Readable, ExprCode, WellFormed, Depth;
    m1 := PushValue(m, m.regs[R12]);
    PushWord(m, R12, syms);
    Run1(Ins(Push(R12)), m, syms);
    SeenSame(value, m.regs[R12], c, m, m1, m.regs[RSP], syms);
    WeakenReadable(value, c, m1, m.regs[RSP], m1.regs[RSP], syms);
    EvalSees(value, R12, c, m1, syms);
    m2 := Run(ExprCode(value, R12, c).value, m1, syms).value;
    Load64Same(m1.mem, m2.mem, m.regs[RSP] as int - 8);
  }

  /** The base in its register. */
  lemma BaseRuns(b: Base, v: Word, c: Ctx, m: Machine, m2: Machine, syms: Syms) returns (m3: Machine)
    requires BaseCode(b, c).Some? && BaseReadable(b, c, m, syms) && m2.regs[R12] == v
    requires forall r: Reg | r != R11 && r != R12 && r != RSP :: m2.regs[r] == m.regs[r]
    requires SameFrom(m.mem, m2.mem, m.regs[RSP])
    ensures Run(BaseCode(b, c).value.1, m2, syms) == Some(m3) && m3.mem == m2.mem
    ensures m3.regs[BaseCode(b, c).value.0] == BaseSeen(b, v, c, m, syms)
    ensures forall r: Reg | !(b.Named? && r == BaseCode(b, c).value.0) :: m3.regs[r] == m2.regs[r]
    ensures b.Named? ==> BaseCode(b, c).value.0 == if b.name in c.locals then R13 else R11
  {
    hide Run, Load64, LoadSlot, Resolve;
    m3 := m2;
    if b.InReg? {
      ResolveIsUser(b.name);
      NothingRuns(m2, syms);
    } else if b.name in c.locals {
      Load64Same(m.mem, m2.mem, Wrap(m.regs[RBP] + c.locals[b.name]));
      LoadSlotCorrect(R13, c.locals[b.name], m2, syms);
      m3 := m2.Set(R13, Load64(m2.mem, Wrap(m2.regs[RBP] + c.locals[b.name])));
    } else {
      m3 := m2.Set(R11, syms[DataLabel(b.name)]);
      Run1(LeaTo(R11, DataLabel(b.name)), m2, syms);
    }
  }

  lemma NothingRuns(m: Machine, syms: Syms)
    ensures Run([], m, syms) == Some(m)
  {
  }

  /** A store over memories that agree somewhere leaves them in agreement there. */
  lemma StoreElsewhere(m: Mem, m3: Mem, at: int, n: nat, v: nat)
    ensures forall a: int | Rd(m, a) == Rd(m3, a) :: Rd(Store(m3, at, n, v), a) == Rd(Store(m, at, n, v), a)
  {
    hide LE;
    forall a: int | Rd(m, a) == Rd(m3, a)
      ensures Rd(Store(m3, at, n, v), a) == Rd(Store(m, at, n, v), a)
    {
      RdWrite(m, at, LE(v, n), a);
      RdWrite(m3, at, LE(v, n), a);
    }
  }

  lemma StoreGoes(width: Width, r: Reg, off: int, m: Machine, at: Word, syms: Syms)
    requires at == Wrap(m.regs[r] as int + off)
    ensures Step(Ins(StoreI(width, At(r, off), R12)), m,
            syms) == Some(m.(mem := Store(m.mem, at, Bytes(width), m.regs[R12])))
  {
    hide Store;
  }

  /** The byte at `a` after storing v at `at`. */
  function StoredByte(m: Mem, at: int, n: nat, v: nat, a: int): Byte {
    if at <= a < at + n then LE(v, n)[a - at] else Rd(m, a)
  }

  /** Memory in which storing v at `at` cannot be told, from `lo` up, from storing it at `want`: the bytes
      wanted are there anyway, and the bytes written elsewhere were there before. */
  ghost predicate Coincides(m: Mem, at: int, want: int, n: nat, v: nat, lo: int) {
    && (forall a: int | lo <= a && want <= a < want + n :: StoredByte(m, at, n, v, a) == LE(v, n)[a - want])
    && (forall a: int | lo <= a && !(want <= a < want + n) :: StoredByte(m, at, n, v, a) == Rd(m, a))
  }

  lemma CoincidesIff(m: Mem, at: int, want: int, n: nat, v: nat, lo: int)
    ensures (forall a: int | a >= lo :: Rd(Store(m, at, n, v), a) == Rd(Store(m, want, n, v), a)) <==>
            Coincides(m, at, want, n, v, lo)
    ensures at == want ==> Coincides(m, at, want, n, v, lo)
  {
    hide LE, WriteBytes;
    forall a: int
      ensures Rd(Store(m, at, n, v), a) == StoredByte(m, at, n, v, a)
      ensures Rd(Store(m, want, n, v), a) == StoredByte(m, want, n, v, a)
    {
      RdWrite(m, at, LE(v, n), a);
      RdWrite(m, want, LE(v, n), a);
    }
    hide Store;
    if forall a: int | a >= lo :: Rd(Store(m, at, n, v), a) == Rd(Store(m, want, n, v), a) {
      forall a: int | a >= lo
        ensures StoredByte(m, at, n, v, a) == StoredByte(m, want, n, v, a)
      {
        assert Rd(Store(m, at, n, v), a) == Rd(Store(m, want, n, v), a);
      }
    }
  }

  /** The store is the store of its operand at base + offset exactly when the base is not r12, or r12
      already holds what is stored, or the bytes in memory hide the difference: the value is evaluated into
      r12 before the base is read. */
  lemma StoreReachesBaseIff(width: Width, b: Base, off: int, value: Expr, c: Ctx, m: Machine,
                            syms: Syms) returns (t: Machine)
    requires WellFormed(c) && StoreCode(width, b, off, value, c).Some? && BaseReadable(b, c, m, syms)
    requires Readable(value, c, m, m.regs[RSP], syms) && 8 * Depth(value) + 8 <= m.regs[RSP]
    ensures Run(StoreCode(width, b, off, value, c).value, m, syms) == Some(t)
    ensures var v := Seen(value, m.regs[R12], c, m, syms);
            var want, n := Wrap(BaseValue(b, c, m, syms) + off), Bytes(width);
            (forall a: int | a >= m.regs[RSP] :: Rd(t.mem, a) == Rd(Store(m.mem, want, n, v), a)) <==>
            !InR12(b) || m.regs[R12] == v || Coincides(m.mem, Wrap(v + off), want, n, v, m.regs[RSP])
  {
    hide Run, Store, Seen, Readable, Resolve, StoreCode, WellFormed, BaseReadable, Depth, Coincides, Load;
    t := StoreRuns(width, b, off, value, c, m, syms);
    var v := Seen(value, m.regs[R12], c, m, syms);
    CoincidesIff(m.mem, StoreAddress(b, off, v, c, m, syms), Wrap(BaseValue(b, c, m, syms) + off), Bytes(width), v,
      m.regs[RSP]);
  }

  // ---- compare and swap ----

  function MoveUnless(same: bool, d: Reg, s: Reg): seq<Item> {
    if same then [] else [Ins(MovRR(d, s))]
  }

  /** rax is parked in r13 when neither the address nor the expected value is in it. */
  predicate SavesRax(addr: Reg, exp: Reg) {
    addr != RAX && exp != RAX
  }

  /** The register the new value is taken from. */
  function Source(des: Reg): Reg {
    if des == RAX || des == R11 || des == R13 then R12 else des
  }

  /** `_gate_cas` up to the locked instruction. */
  function CasBefore(addr: Reg, exp: Reg, des: Reg): seq<Item> {
    [Ins(MovRR(R11, addr))] + (MoveUnless(!SavesRax(addr, exp), R13, RAX) +
    (MoveUnless(Source(des) == des, R12, des) + MoveUnless(exp == RAX, RAX, exp)))
  }

  /** And after it. */
  function CasAfter(addr: Reg, exp: Reg): seq<Item> {
    MoveUnless(exp == RAX, exp, RAX) +
    (if addr == RAX then [Ins(MovRR(RAX, R11))] else MoveUnless(!SavesRax(addr, exp), RAX, R13))
  }

  /** `lock cmpxchg [r11], src`; the flags are left out. */
  function CmpXchg(m: Machine, src: Reg): Machine {
    var was := Load64(m.mem, m.regs[R11]);
    if was == m.regs[RAX] then m.(mem := Store64(m.mem, m.regs[R11], m.regs[src])) else m.Set(RAX, was)
  }

  function RunCas(addr: Reg, exp: Reg, des: Reg, m: Machine, syms: Syms): Option<Machine> {
    match Run(CasBefore(addr, exp, des), m, syms)
    case None => None
    case Some(t) => Run(CasAfter(addr, exp), CmpXchg(t, Source(des)), syms)
  }

  /** Compare and swap: store d if the word is e. */
  function CasSpec(mem: Mem, a: Word, e: Word, d: Word): Mem {
    if Load64(mem, a) == e then Store64(mem, a, d) else mem
  }

  /** The value the code takes from a register that rax may have been parked over. */
  function OperandSeen(r: Reg, addr: Reg, exp: Reg, m: Machine): Word {
    if r == R13 && SavesRax(addr, exp) then m.regs[RAX] else m.regs[r]
  }

  /** The expected value the code compares with: one in r12 has been replaced by a new value moved there. */
  function ExpectedSeen(addr: Reg, exp: Reg, des: Reg, m: Machine): Word {
    if exp == R12 && Source(des) != des then OperandSeen(des, addr, exp, m) else OperandSeen(exp, addr, exp, m)
  }

  lemma MoveRuns(same: bool, d: Reg, s: Reg, m: Machine, syms: Syms)
    ensures Run(MoveUnless(same, d, s), m, syms) == Some(if same then m else m.Set(d, m.regs[s]))
  {
    if !same { Run1(Ins(MovRR(d, s)), m, syms); }
  }

  lemma BeforeRuns(addr: Reg, exp: Reg, des: Reg, m: Machine, syms: Syms) returns (t: Machine)
    requires addr in USER && exp in USER && des in USER
    ensures Run(CasBefore(addr, exp, des), m, syms) == Some(t)
    ensures t.mem == m.mem && t.regs[R11] == m.regs[addr]
    ensures t.regs[RAX] == ExpectedSeen(addr, exp, des, m)
    ensures t.regs[Source(des)] == OperandSeen(des, addr, exp, m) || (des == RAX && exp == RAX)
    ensures des == RAX ==> t.regs[R12] == m.regs[RAX]
    ensures SavesRax(addr, exp) ==> t.regs[R13] == m.regs[RAX]
    ensures forall r: Reg | r !in {RAX, R11, R12, R13} :: t.regs[r] == m.regs[r]
    ensures !SavesRax(addr, exp) ==> t.regs[R13] == m.regs[R13]
    ensures Source(des) == des ==> t.regs[R12] == m.regs[R12]
  {
    hide Run;
    var m1 := m.Set(R11, m.regs[addr]);
    Run1(Ins(MovRR(R11, addr)), m, syms);
    var park, pick := MoveUnless(!SavesRax(addr, exp), R13, RAX), MoveUnless(Source(des) == des, R12, des);
    var load := MoveUnless(exp == RAX, RAX, exp);
    MoveRuns(!SavesRax(addr, exp), R13, RAX, m1, syms);
    var m2 := if SavesRax(addr, exp) then m1.Set(R13, m1.regs[RAX]) else m1;
    MoveRuns(Source(des) == des, R12, des, m2, syms);
    var m3 := if Source(des) == des then m2 else m2.Set(R12, m2.regs[des]);
    MoveRuns(exp == RAX, RAX, exp, m3, syms);
    t := if exp == RAX then m3 else m3.Set(RAX, m3.regs[exp]);
    Then(pick, load, m2, m3, syms);
    Then(park, pick + load, m1, m2, syms);
    Then([Ins(MovRR(R11, addr))], park + (pick + load), m, m1, syms);
  }

  lemma AfterRuns(addr: Reg, exp: Reg, m: Machine, syms: Syms) returns (t: Machine)
    ensures Run(CasAfter(addr, exp), m, syms) == Some(t) && t.mem == m.mem
    ensures var regs := if exp == RAX then m.regs else m.regs[exp := m.regs[RAX]];
            t.regs == if addr == RAX then regs[RAX := regs[R11]]
                      else if SavesRax(addr, exp) then regs[RAX := regs[R13]]
                      else regs
  {
    hide Run;
    MoveRuns(exp == RAX, exp, RAX, m, syms);
    var m1 := if exp == RAX then m else m.Set(exp, m.regs[RAX]);
    var last := if addr == RAX then [Ins(MovRR(RAX, R11))] else MoveUnless(!SavesRax(addr, exp), RAX, R13);
    if addr == RAX {
      Run1(Ins(MovRR(RAX, R11)), m1, syms);
      t := m1.Set(RAX, m1.regs[R11]);
    } else {
      MoveRuns(!SavesRax(addr, exp), RAX, R13, m1, syms);
      t := if SavesRax(addr, exp) then m1.Set(RAX, m1.regs[R13]) else m1;
    }
    Then(MoveUnless(exp == RAX, exp, RAX), last, m, m1, syms);
  }

  /** Registers after the gate, given the word it found: the expected register receives that word, unless it
      is rax and also the address; rax itself is lost to an expected value in r13; r11, and with a parked rax
      or a moved new value r13 and r12, are scratch; the others are kept. */
  ghost predicate CasLeaves(addr: Reg, exp: Reg, des: Reg, found: Word, m: Machine, t: Machine) {
    && (!(exp == RAX && addr == RAX) ==> t.regs[exp] == found)
    && (exp == R13 && SavesRax(addr, exp) ==> t.regs[RAX] == found)
    && (exp != R13 && (exp != RAX || addr == RAX) ==> t.regs[RAX] == m.regs[RAX])
    && (forall r: Reg | r !in {RAX, R11, R12, R13, exp} :: t.regs[r] == m.regs[r])
    && (!SavesRax(addr, exp) && exp != R13 ==> t.regs[R13] == m.regs[R13])
    && (Source(des) == des && exp != R12 ==> t.regs[R12] == m.regs[R12])
  }

  /** The gate is a compare-and-swap of the values it sees: those of its operands, except that an operand
      in r13 is seen as rax when rax has been parked there. */
  lemma CasIsSeen(addr: Reg, exp: Reg, des: Reg, m: Machine, syms: Syms) returns (t: Machine)
    requires addr in USER && exp in USER && des in USER
    ensures RunCas(addr, exp, des, m, syms) == Some(t)
    ensures t.mem == CasSpec(m.mem, m.regs[addr], ExpectedSeen(addr, exp, des, m), OperandSeen(des, addr, exp, m))
    ensures CasLeaves(addr, exp, des, Load64(m.mem, m.regs[addr]), m, t)
  {
    hide Run, Load64, Store64, CasBefore, CasAfter;
    var m1 := BeforeRuns(addr, exp, des, m, syms);
    t := AfterRuns(addr, exp, CmpXchg(m1, Source(des)), syms);
  }

  /** The new value is not parked over, or the same value is. */
  predicate NewKept(addr: Reg, exp: Reg, des: Reg, m: Machine) {
    !(des == R13 && SavesRax(addr, exp)) || m.regs[RAX] == m.regs[R13]
  }

  /** Nor is the expected value, which a new value moved to r12 can displace as well. */
  predicate ExpectedKept(addr: Reg, exp: Reg, des: Reg, m: Machine) {
    if exp == R12 && Source(des) != des then OperandSeen(des, addr, exp, m) == m.regs[R12]
    else !(exp == R13 && SavesRax(addr, exp)) || m.regs[RAX] == m.regs[R13]
  }

  lemma CasSeesIff(addr: Reg, exp: Reg, des: Reg, m: Machine)
    ensures OperandSeen(des, addr, exp, m) == m.regs[des] <==> NewKept(addr, exp, des, m)
    ensures ExpectedSeen(addr, exp, des, m) == m.regs[exp] <==> ExpectedKept(addr, exp, des, m)
  {
  }

  /** The word after the gate is the one a compare-and-swap of the registers' own values leaves, exactly when:
      a swap that should happen happens with the right value or would not have changed the word, and a swap
      that should not happen does not, or stores what is there. */
  lemma CasRightIff(addr: Reg, exp: Reg, des: Reg, m: Machine, syms: Syms) returns (t: Machine)
    requires addr in USER && exp in USER && des in USER
    ensures RunCas(addr, exp, des, m, syms) == Some(t)
    ensures var a, cur := m.regs[addr], Load64(m.mem, m.regs[addr]);
            var e, d := ExpectedSeen(addr, exp, des, m), OperandSeen(des, addr, exp, m);
            Load64(t.mem, a) == Load64(CasSpec(m.mem, a, m.regs[exp], m.regs[des]), a) <==>
            if cur == m.regs[exp] then (if cur == e then d else cur) == m.regs[des] else cur == e ==> d == cur
  {
    hide Load64, Store64, RunCas, CasLeaves, OperandSeen, ExpectedSeen;
    t := CasIsSeen(addr, exp, des, m, syms);
    LoadStore64(m.mem, m.regs[addr], OperandSeen(des, addr, exp, m));
    LoadStore64(m.mem, m.regs[addr], m.regs[des]);
  }

  /** So a swap that should succeed leaves the new value in the word exactly when: with the expected value kept, the new
      one is kept too; with the expected value lost, the word holds the new one already. */
  lemma CasStoresIff(addr: Reg, exp: Reg, des: Reg, m: Machine, syms: Syms) returns (t: Machine)
    requires addr in USER && exp in USER && des in USER && Load64(m.mem, m.regs[addr]) == m.regs[exp]
    ensures RunCas(addr, exp, des, m, syms) == Some(t)
    ensures Load64(t.mem, m.regs[addr]) == m.regs[des] <==>
            if ExpectedKept(addr, exp, des, m) then NewKept(addr, exp, des, m)
            else Load64(m.mem, m.regs[addr]) == m.regs[des]
  {
    hide Load64, Store64, RunCas, CasLeaves, OperandSeen, ExpectedSeen, NewKept, ExpectedKept;
    t := CasRightIff(addr, exp, des, m, syms);
    CasSeesIff(addr, exp, des, m);
    LoadStore64(m.mem, m.regs[addr], m.regs[des]);
  }
}
