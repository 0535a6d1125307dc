/** `dma_ring_push`: what the emitted instructions leave for any operands, and when that is the pushed ring. */
module DmaRingPush {
  import opened Wrappers
  import opened Words
  import opened Memory
  import opened Regs
  import opened Isa
  import opened Assembly
  import opened Ast
  import opened Codegen
  import opened Semantics
  import opened ExprProofs
  import opened StmtProofs
  import opened SourceLanguage
  import opened MachineSteps
  import opened Flow
  import opened DmaRing
  import opened DmaRingMemory

  // ---- the code ----

  const TEMPS: seq<Reg> := [R8, R9, R10, R11]
  const EQ: Cc := 4

  const LOAD_RING: seq<Item> :=
    [LeaTo(R8, RING), Ins(LoadI(W32, R9, At(R8, 0))), Ins(LoadI(W32, R10, At(R8, 4))), Ins(LoadI(W32, R11, At(R8, 8)))]
  const TEST_FULL: seq<Item> :=
    [Ins(MovRR(RAX, R9)), Ins(AluImm(ADD, RAX, 1)), Ins(Alu(AND, RAX, R11)), Ins(Alu(CMP, RAX, R10))]

  /** Address of slot `p` into rax. */
  function SlotAddress(p: Reg): seq<Item> {
    [Ins(MovRR(RAX, p)), Ins(ShiftImm(SHL, RAX, 4)), Ins(AluImm(ADD, RAX, 16)), Ins(Alu(ADD, RAX, R8))]
  }

  const ADVANCE_HEAD: seq<Item> :=
    [Ins(MovRR(RAX, R9)), Ins(AluImm(ADD, RAX, 1)), Ins(Alu(AND, RAX, R11)), Ins(StoreI(W32, At(R8, 0), RAX))]
  /** Code of the branch taken when the ring is not full. */
  function StorePair(addr: seq<Item>, len: seq<Item>): seq<Item> {
    SlotAddress(R9) + ([Ins(MovRR(R10, RAX))] + (addr + ([Ins(StoreI(W64, At(R10, 0), RAX))] +
    (len + ([Ins(StoreI(W64, At(R10, 8), RAX))] + (ADVANCE_HEAD + [Ins(Alu(XOR, RAX, RAX))]))))))
  }

  const FAIL: seq<Item> := [Ins(MovImm(RAX, 1))]

  function PushTest(): seq<Item> {
    Pushes(TEMPS) + (LOAD_RING + TEST_FULL)
  }

  function PushBody(addr: Expr, len: Expr, c: Ctx): seq<Item>
    requires ExprCode(addr, RAX, c).Some? && ExprCode(len, RAX, c).Some?
  {
    StorePair(ExprCode(addr, RAX, c).value, ExprCode(len, RAX, c).value)
  }

  /** The statement, with its two fresh labels. */
  function PushCode(full: string, ok: string, addr: Expr, len: Expr, c: Ctx): seq<Item>
    requires ExprCode(addr, RAX, c).Some? && ExprCode(len, RAX, c).Some?
  {
    BranchCode(PushTest(), EQ, full, PushBody(addr, len, c), ok, FAIL) + Pops(TEMPS)
  }

  /** What it does. */
  function RunPush(addr: Expr, len: Expr, c: Ctx, m: Machine, syms: Syms): Option<Machine>
    requires ExprCode(addr, RAX, c).Some? && ExprCode(len, RAX, c).Some?
  {
    match RunBranch(PushTest(), EQ, PushBody(addr, len, c), FAIL, m, syms)
    case None => None
    case Some(u) => Run(Pops(TEMPS), u, syms)
  }

  /** The emitted items do this wherever they stand. */
  lemma PushReaches(x: Listing, pc: nat, full: string, ok: string, addr: Expr, len: Expr, c: Ctx, m: Machine,
                    t: Machine, syms: Syms)
    requires ExprCode(addr, RAX, c).Some? && ExprCode(len, RAX, c).Some? && Unique(x.items)
    requires Stands(x, pc, PushCode(full, ok, addr, len, c)) && RunPush(addr, len, c, m, syms) == Some(t)
    ensures Reaches(x, Spot(pc, m), Spot(pc + |PushCode(full, ok, addr, len, c)|, t), syms)
  {
    hide Run, RunBranch, BranchCode, PushTest, PushBody, Pops, Stands, Unique, Reaches;
    var branch := BranchCode(PushTest(), EQ, full, PushBody(addr, len, c), ok, FAIL);
    var u := RunBranch(PushTest(), EQ, PushBody(addr, len, c), FAIL, m, syms).value;
    StandsPart(x, pc, branch, Pops(TEMPS));
    BranchReaches(x, pc, PushTest(), EQ, full, PushBody(addr, len, c), ok, FAIL, m, u, syms);
    ReachRun(x, pc + |branch|, Pops(TEMPS), u, t, syms);
    ReachTrans(x, Spot(pc, m), Spot(pc + |branch|, u), Spot(pc + |branch| + |Pops(TEMPS)|, t), syms);
  }

  /** The body, up to the store of the address and from there on. */
  function FirstHalf(ac: seq<Item>): seq<Item> {
    SlotAddress(R9) + ([Ins(MovRR(R10, RAX))] + (ac + [Ins(StoreI(W64, At(R10, 0), RAX))]))
  }

  function SecondHalf(lc: seq<Item>): seq<Item> {
    lc + ([Ins(StoreI(W64, At(R10, 8), RAX))] + (ADVANCE_HEAD + [Ins(Alu(XOR, RAX, RAX))]))
  }

  lemma Halves(ac: seq<Item>, lc: seq<Item>)
    ensures StorePair(ac, lc) == FirstHalf(ac) + SecondHalf(lc)
  {
    hide SlotAddress, ADVANCE_HEAD;
    Regroup(SlotAddress(R9), [Ins(MovRR(R10, RAX))], ac, [Ins(StoreI(W64, At(R10, 0), RAX))], SecondHalf(lc));
  }

  lemma Regroup(a: seq<Item>, b: seq<Item>, c: seq<Item>, d: seq<Item>, e: seq<Item>)
    ensures (a + (b + (c + d))) + e == a + (b + (c + (d + e)))
  {
  }

  // ---- up to the operands ----

  /** Base, head, tail and mask in r8 to r11. */
  lemma RingLoaded(m: Machine, base: int, r: Ring, syms: Syms) returns (t: Machine)
    requires RingAt(m.mem, base, r) && RING in syms && syms[RING] == base && 0 <= base && base + 16 <= TWO64 &&
             |r.cells| <= TWO32
    ensures Run(LOAD_RING, m, syms) == Some(t)
    ensures t == m.(regs := m.regs[R8 := base][R9 := r.head][R10 := r.tail][R11 := |r.cells| - 1])
  {
    hide Load, LoadW, CellAt;
    var m1 := m.Set(R8, base);
    var m2 := m1.Set(R9, r.head);
    var m3 := m2.Set(R10, r.tail);
    t := m3.Set(R11, |r.cells| - 1);
    Read32(m1, R9, R8, 0, syms);
    Read32(m2, R10, R8, 4, syms);
    Read32(m3, R11, R8, 8, syms);
    Run4(LOAD_RING[0], LOAD_RING[1], LOAD_RING[2], LOAD_RING[3], m, m1, m2, m3, t, syms);
  }

  /** The full test: rax holds the next head, and the branch is taken exactly when it meets the tail. */
  lemma FullTested(m: Machine, n: nat, syms: Syms) returns (t: Machine)
    requires m.regs[R9] < n <= TWO32 && m.regs[R11] == n - 1 && exists k: nat :: n == Pow2(k)
    ensures Run(TEST_FULL, m, syms) == Some(t)
    ensures Same(t, m.regs[RAX := Following(m.regs[R9], n)], m.mem)
    ensures Holds(EQ, t.flags) == Some(Following(m.regs[R9], n) == m.regs[R10])
  {
    hide AluFlags, AluResult, Holds;
    var m1 := m.Set(RAX, m.regs[R9]);
    var m2 := AddStep(m1, RAX, 1, syms);
    NextIsMasked(m.regs[R9], n);
    var m3 := AndStep(m2, RAX, R11, Following(m.regs[R9], n), syms);
    t := m3.(flags := AluFlags(CMP, m3.regs[RAX], m3.regs[R10]));
    assert Step(Ins(MovRR(RAX, R9)), m, syms) == Some(m1);
    assert Step(Ins(Alu(CMP, RAX, R10)), m3, syms) == Some(t);
    Run4(TEST_FULL[0], TEST_FULL[1], TEST_FULL[2], TEST_FULL[3], m, m1, m2, m3, t, syms);
    CompareMeaning(EQ, m3.regs[RAX], m3.regs[R10]);
  }

  lemma ShiftedFour(p: nat)
    requires p < TWO32
    ensures Wrap(p * Pow2(4)) == 16 * p
  {
    assert Pow2(4) == 16;
  }

  /** The slot address: base + 16 + 16 p. */
  lemma SlotAddressed(m: Machine, p: Reg, base: int, syms: Syms) returns (t: Machine)
    requires m.regs[R8] == base && p != RAX && m.regs[p] < TWO32 && SlotAt(base, m.regs[p]) < TWO64
    ensures Run(SlotAddress(p), m, syms) == Some(t)
    ensures Same(t, m.regs[RAX := SlotAt(base, m.regs[p])], m.mem)
  {
    hide AluFlags, ShiftFlags, Run;
    var i: nat := m.regs[p];
    var m1 := m.Set(RAX, i);
    assert Step(Ins(MovRR(RAX, p)), m, syms) == Some(m1);
    ShiftedFour(i);
    var m2 := m1.(flags := ShiftFlags(SHL, i, 4, m1.flags)).Set(RAX, 16 * i);
    assert Step(Ins(ShiftImm(SHL, RAX, 4)), m1, syms) == Some(m2);
    var m3 := AddStep(m2, RAX, 16, syms);
    t := m3.(flags := AluFlags(ADD, m3.regs[RAX], m3.regs[R8])).Set(RAX, SlotAt(base, i));
    assert Step(Ins(Alu(ADD, RAX, R8)), m3, syms) == Some(t);
    var l := SlotAddress(p);
    hide Step;
    Run4(l[0], l[1], l[2], l[3], m, m1, m2, m3, t, syms);
  }

  lemma FailRuns(m: Machine, syms: Syms)
    ensures Run(FAIL, m, syms) == Some(m.Set(RAX, 1))
  {
    Run1(Ins(MovImm(RAX, 1)), m, syms);
  }

  /** The machine after the test of a push: four words saved, the ring in r8 to r11. */
  lemma Tested(m: Machine, base: int, r: Ring, depth: nat, syms: Syms) returns (t: Machine)
    requires RingPlaced(m, base, |r.cells|, depth, syms) && RingAt(m.mem, base, r)
    ensures Run(PushTest(), m, syms) == Some(t) && RingAt(t.mem, base, r)
    ensures t.regs ==
            m.regs[RSP := m.regs[RSP] as int - 32][R8 := base][R9 := r.head][R10 := r.tail][R11 := |r.cells| - 1]
                            [RAX := Following(r.head, |r.cells|)]
    ensures SavedRegs(t.mem, m, m.regs[RSP], TEMPS) && SameOutside(m.mem, t.mem, m.regs[RSP] as int - 32, m.regs[RSP])
    ensures Holds(EQ, t.flags) == Some(Following(r.head, |r.cells|) == r.tail)
  {
    hide Run, RingAt, SavedRegs, Pushes, Holds;
    assert RingOk(r) by { RingIsOk(m.mem, base, r); }
    var m1 := PushesRun(TEMPS, m, syms);
    RingKept(m.mem, m1.mem, base, r);
    var m2 := RingLoaded(m1, base, r, syms);
    t := FullTested(m2, |r.cells|, syms);
    Then(LOAD_RING, TEST_FULL, m1, m2, syms);
    Then(Pushes(TEMPS), LOAD_RING + TEST_FULL, m, m1, syms);
  }

  // ---- operands ----

  predicate Emitted(addr: Expr, len: Expr, c: Ctx) {
    ExprCode(addr, RAX, c).Some? && ExprCode(len, RAX, c).Some?
  }

  /** The ring in the address space, with a slot for the head. */
  predicate Fits(base: int, r: Ring) {
    RingOk(r) && 0 <= base && base + RingSize(|r.cells|) <= TWO64 && |r.cells| <= TWO32
  }

  function Slot(base: int, r: Ring): Word
    requires Fits(base, r)
  {
    SlotAt(base, r.head)
  }

  /** The machine the address operand is evaluated in: rax and r8 to r10 hold the code's own values. */
  function AtAddr(m: Machine, base: int, r: Ring): Machine
    requires Fits(base, r)
  {
    m.(regs := m.regs[R8 := base][R9 := r.head][R10 := Slot(base, r)][RAX := Slot(base, r)])
  }

  function AddrSeen(addr: Expr, c: Ctx, m: Machine, base: int, r: Ring, syms: Syms): Word
    requires Fits(base, r)
  {
    Seen(addr, m.regs[R12], c, AtAddr(m, base, r), syms)
  }

  function AddrR12(addr: Expr, c: Ctx, m: Machine, base: int, r: Ring, syms: Syms): Word
    requires Fits(base, r)
  {
    R12After(addr, m.regs[R12], c, AtAddr(m, base, r), syms)
  }

  /** The machine the length operand is evaluated in: rax holds the address, and so does the slot. */
  function AtLen(addr: Expr, c: Ctx, m: Machine, base: int, r: Ring, syms: Syms): Machine
    requires Fits(base, r)
  {
    var a := AddrSeen(addr, c, m, base, r, syms);
    AtAddr(m, base, r).(mem := Store64(m.mem, Slot(base, r), a)).Set(RAX, a)
  }

  function LenSeen(addr: Expr, len: Expr, c: Ctx, m: Machine, base: int, r: Ring, syms: Syms): Word
    requires Fits(base, r)
  {
    Seen(len, AddrR12(addr, c, m, base, r, syms), c, AtLen(addr, c, m, base, r, syms), syms)
  }

  /** What r11 holds when the head advances: the mask, unless a compound operand has replaced it by its value. */
  function MaskSeen(addr: Expr, len: Expr, c: Ctx, m: Machine, base: int, r: Ring, syms: Syms): Word
    requires Fits(base, r)
  {
    if Compound(len) then LenSeen(addr, len, c, m, base, r, syms)
    else if Compound(addr) then AddrSeen(addr, c, m, base, r, syms)
    else |r.cells| - 1
  }

  function NewHead(addr: Expr, len: Expr, c: Ctx, m: Machine, base: int, r: Ring, syms: Syms): Word
    requires Fits(base, r)
  {
    Logic(BitAnd, r.head + 1, MaskSeen(addr, len, c, m, base, r, syms))
  }

  function PushDepth(addr: Expr, len: Expr): nat {
    if Depth(addr) > Depth(len) then Depth(addr) else Depth(len)
  }

  /** An operand evaluated into rax inside the statement, against a machine that agrees with it where operands read. */
  lemma OperandRuns(e: Expr, c: Ctx, was: Machine, m: Machine, lo: int, syms: Syms) returns (t: Machine)
    requires WellFormed(c) && ExprCode(e, RAX, c).Some? && Readable(e, c, was, lo, syms)
    requires AgreeUser(was, m, lo) && m.regs[RSP] <= lo && 8 * Depth(e) <= m.regs[RSP]
    ensures Run(ExprCode(e, RAX, c).value, m, syms) == Some(t)
    ensures t.regs[RAX] == Seen(e, m.regs[R12], c, was, syms) && t.regs[R12] == R12After(e, m.regs[R12], c, was, syms)
    ensures t.regs[R11] == if Compound(e) then t.regs[RAX] else m.regs[R11]
    ensures forall q: Reg | q != RAX && q != R11 && q != R12 :: t.regs[q] == m.regs[q]
    ensures SameOutside(m.mem, t.mem, m.regs[RSP] as int - 8 * Depth(e), m.regs[RSP])
  {
    hide Run, Seen, SeenFlags, R12After, Readable, ExprCode, Depth, WellFormed;
    SeenSame(e, m.regs[R12], c, was, m, lo, syms);
    WeakenReadable(e, c, m, lo, m.regs[RSP], syms);
    EvalSees(e, RAX, c, m, syms);
    t := Run(ExprCode(e, RAX, c).value, m, syms).value;
  }

  /** Advancing the head by whatever mask r11 holds, and clearing the status. */
  lemma HeadAdvanced(m: Machine, base: int, syms: Syms) returns (t: Machine)
    requires m.regs[R9] < TWO32 && m.regs[R8] == base
    ensures Run(ADVANCE_HEAD + [Ins(Alu(XOR, RAX, RAX))], m, syms) == Some(t)
    ensures Same(t, m.regs[RAX := 0], Store(m.mem, base, 4, Logic(BitAnd, m.regs[R9] + 1, m.regs[R11])))
  {
    hide AluFlags, Logic, Store, Run;
    var m1 := m.Set(RAX, m.regs[R9]);
    var m2 := AddStep(m1, RAX, 1, syms);
    var m3 := AndStep(m2, RAX, R11, Logic(BitAnd, m.regs[R9] + 1, m.regs[R11]), syms);
    StoreStep32(m3, R8, 0, RAX, syms);
    var m4 := m3.(mem := Store(m3.mem, base, 4, m3.regs[RAX]));
    assert Step(Ins(MovRR(RAX, R9)), m, syms) == Some(m1);
    hide Step;
    Run4(ADVANCE_HEAD[0], ADVANCE_HEAD[1], ADVANCE_HEAD[2], ADVANCE_HEAD[3], m, m1, m2, m3, m4, syms);
    t := Cleared(m4, syms);
    RunConcat(ADVANCE_HEAD, [Ins(Alu(XOR, RAX, RAX))], m, syms);
  }

  /** The first half: the slot's address in r10, the address operand evaluated and stored. */
  lemma AddrStored(addr: Expr, c: Ctx, m: Machine, m3: Machine, base: int, r: Ring, syms: Syms) returns (mem: Mem,
                   t: Machine)
    requires WellFormed(c) && ExprCode(addr, RAX, c).Some? && Readable(addr, c, m, m.regs[RSP], syms) && Fits(base, r)
    requires AfterTest(m, m3, base, r) && 32 + 8 * Depth(addr) <= m.regs[RSP] && SameFrom(m.mem, m3.mem, m.regs[RSP])
    ensures Run(FirstHalf(ExprCode(addr, RAX, c).value), m3, syms) == Some(t)
    ensures SameOutside(m3.mem, mem, m3.regs[RSP] as int - 8 * Depth(addr), m3.regs[RSP])
    ensures t.mem == Store64(mem, Slot(base, r), AddrSeen(addr, c, m, base, r, syms))
    ensures t.regs[RAX] == AddrSeen(addr, c, m, base, r, syms) && t.regs[R10] == Slot(base, r)
    ensures t.regs[R12] == AddrR12(addr, c, m, base, r, syms)
    ensures t.regs[R11] == if Compound(addr) then t.regs[RAX] else m3.regs[R11]
    ensures forall q: Reg | q !in {RAX, R10, R11, R12} :: t.regs[q] == m3.regs[q]
  {
    hide Run, Store64, Seen, R12After, Readable, ExprCode, Depth, WellFormed, AluFlags, ShiftFlags;
    var ac := ExprCode(addr, RAX, c).value;
    var m4 := SlotAddressed(m3, R9, base, syms);
    var m5 := m4.Set(R10, Slot(base, r));
    Run1(Ins(MovRR(R10, RAX)), m4, syms);
    ReadableSame(addr, c, m, AtAddr(m, base, r), m.regs[RSP], syms);
    var m6 := OperandRuns(addr, c, AtAddr(m, base, r), m5, m.regs[RSP], syms);
    mem := m6.mem;
    StoreStep(m6, R10, 0, RAX, syms);
    Run1(Ins(StoreI(W64, At(R10, 0), RAX)), m6, syms);
    t := m6.(mem := Store64(m6.mem, Slot(base, r), m6.regs[RAX]));
    var st := [Ins(StoreI(W64, At(R10, 0), RAX))];
    Then(ac, st, m5, m6, syms);
    Then([Ins(MovRR(R10, RAX))], ac + st, m4, m5, syms);
    Then(SlotAddress(R9), [Ins(MovRR(R10, RAX))] + (ac + st), m3, m4, syms);
  }

  /** Registers after the test, but for flags and rax. */
  ghost predicate AfterTest(m: Machine, m3: Machine, base: int, r: Ring)
    requires Fits(base, r)
  {
    && m.regs[RSP] >= 32 && m3.regs[RSP] == m.regs[RSP] as int - 32
    && m3.regs[R8] == base && m3.regs[R9] == r.head && m3.regs[R11] == |r.cells| - 1
    && forall q: Reg | q !in {RAX, R8, R9, R10, R11, RSP} :: m3.regs[q] == m.regs[q]
  }

  lemma {:induction false} ReadableSame(e: Expr, c: Ctx, m: Machine, m': Machine, lo: int, syms: Syms)
    requires Readable(e, c, m, lo, syms) && m'.regs[RBP] == m.regs[RBP]
    ensures Readable(e, c, m', lo, syms)
  {
    if e.Bin? {
      ReadableSame(e.left, c, m, m', lo, syms);
      ReadableSame(e.right, c, m, m', lo, syms);
    }
  }

  /** The second half: the length operand evaluated and stored, the head advanced, the status cleared. */
  lemma LenStored(addr: Expr, len: Expr, c: Ctx, m: Machine, m7: Machine, base: int, r: Ring,
                  syms: Syms) returns (mem: Mem, t: Machine)
    requires WellFormed(c) && ExprCode(len, RAX, c).Some? && Readable(len, c, m, m.regs[RSP], syms) && Fits(base, r)
    requires m.regs[RSP] >= 32 && m7.regs[RSP] == m.regs[RSP] as int - 32 && 32 + 8 * Depth(len) <= m.regs[RSP]
    requires AgreeUser(AtLen(addr, c, m, base, r, syms), m7, m.regs[RSP]) &&
             m7.regs[R12] == AddrR12(addr, c, m, base, r, syms)
    ensures Run(SecondHalf(ExprCode(len, RAX, c).value), m7, syms) == Some(t)
    ensures SameOutside(m7.mem, mem, m7.regs[RSP] as int - 8 * Depth(len), m7.regs[RSP])
    ensures var l := LenSeen(addr, len, c, m, base, r, syms);
            && t.mem == Store(Store64(mem, Slot(base, r) as int + 8, l), base, 4,
                              Logic(BitAnd, r.head + 1, if Compound(len) then l else m7.regs[R11]))
            && t.regs[R12] == R12After(len, m7.regs[R12], c, AtLen(addr, c, m, base, r, syms), syms)
    ensures t.regs[RAX] == 0 && forall q: Reg | q !in {RAX, R11, R12} :: t.regs[q] == m7.regs[q]
  {
    hide Run, Store64, Store, Seen, R12After, Readable, ExprCode, Depth, WellFormed, Logic, AddrSeen;
    var lc := ExprCode(len, RAX, c).value;
    ReadableSame(len, c, m, AtLen(addr, c, m, base, r, syms), m.regs[RSP], syms);
    var m8 := OperandRuns(len, c, AtLen(addr, c, m, base, r, syms), m7, m.regs[RSP], syms);
    mem := m8.mem;
    StoreStep(m8, R10, 8, RAX, syms);
    Run1(Ins(StoreI(W64, At(R10, 8), RAX)), m8, syms);
    var m9 := m8.(mem := Store64(m8.mem, Slot(base, r) as int + 8, m8.regs[RAX]));
    t := HeadAdvanced(m9, base, syms);
    var l6 := ADVANCE_HEAD + [Ins(Alu(XOR, RAX, RAX))];
    Then([Ins(StoreI(W64, At(R10, 8), RAX))], l6, m8, m9, syms);
    Then(lc, [Ins(StoreI(W64, At(R10, 8), RAX))] + l6, m7, m8, syms);
  }

  // ---- the whole statement ----

  /** Nothing outside the ring and the stack words the code uses differs. */
  ghost predicate OnlyRing(m: Machine, t: Machine, base: int, n: nat, depth: nat) {
    forall a: int | !(base <= a < base + RingSize(n)) && !(m.regs[RSP] as int - 32 - 8 * depth <= a < m.regs[RSP]) ::
      Rd(m.mem, a) == Rd(t.mem, a)
  }

  /** The cell a push stores. */
  function CellSeen(addr: Expr, len: Expr, c: Ctx, m: Machine, base: int, r: Ring, syms: Syms): Cell
    requires Fits(base, r)
  {
    (AddrSeen(addr, c, m, base, r, syms), LenSeen(addr, len, c, m, base, r, syms))
  }

  /** The branch taken when the ring is not full, for any operands. */
  lemma PairStored(addr: Expr, len: Expr, c: Ctx, m: Machine, m3: Machine, base: int, r: Ring,
                   syms: Syms) returns (t: Machine)
    requires WellFormed(c) && Emitted(addr, len, c) && Readable(addr, c, m, m.regs[RSP], syms) &&
             Readable(len, c, m, m.regs[RSP], syms)
    requires RingPlaced(m, base, |r.cells|, PushDepth(addr, len), syms) && Fits(base, r) && RingAt(m3.mem, base, r)
    requires AfterTest(m, m3, base, r) && SavedRegs(m3.mem, m, m.regs[RSP], TEMPS)
    requires SameOutside(m.mem, m3.mem, m.regs[RSP] as int - 32, m.regs[RSP])
    ensures Run(PushBody(addr, len, c), m3, syms) == Some(t)
    ensures RingWith(t.mem, base, NewHead(addr, len, c, m, base, r, syms) % TWO32,
            r.(cells := r.cells[r.head := CellSeen(addr, len, c, m, base, r, syms)]))
    ensures t.regs[RAX] == 0 &&
            t.regs[R12] == R12After(len, AddrR12(addr, c, m, base, r, syms), c, AtLen(addr, c, m, base, r, syms), syms)
    ensures t.regs[RSP] == m3.regs[RSP] && forall q: Reg | q !in {RAX, R8, R9, R10, R11, R12, RSP} ::
            t.regs[q] == m.regs[q]
    ensures SavedRegs(t.mem, m, m.regs[RSP], TEMPS) && OnlyRing(m, t, base, |r.cells|, PushDepth(addr, len))
  {
    hide Run, Store, Store64, Load64, Seen, R12After, Readable, ExprCode, WellFormed, RingAt, RingWith, SavedRegs,
      AddrSeen, AddrR12, LenSeen, Logic, Depth,
         FirstHalf, SecondHalf, StorePair, PushBody;
    var a := AddrSeen(addr, c, m, base, r, syms);
    var memA, m7 := AddrStored(addr, c, m, m3, base, r, syms);
    StoredAbove(m.mem, memA, m.regs[RSP], Slot(base, r), a);
    var memB, t1 := LenStored(addr, len, c, m, m7, base, r, syms);
    t := t1;
    PairMemory(m, m3.mem, memA, memB, t.mem, base, r, CellSeen(addr, len, c, m, base, r, syms),
      NewHead(addr, len, c, m, base, r, syms), PushDepth(addr, len), syms);
    BodyRuns(addr, len, c, m3, m7, t, syms);
  }

  lemma BodyRuns(addr: Expr, len: Expr, c: Ctx, m3: Machine, m7: Machine, t: Machine, syms: Syms)
    requires Emitted(addr, len, c) && Run(FirstHalf(ExprCode(addr, RAX, c).value), m3, syms) == Some(m7)
    requires Run(SecondHalf(ExprCode(len, RAX, c).value), m7, syms) == Some(t)
    ensures Run(PushBody(addr, len, c), m3, syms) == Some(t)
  {
    hide Run, ExprCode, FirstHalf, SecondHalf;
    Halves(ExprCode(addr, RAX, c).value, ExprCode(len, RAX, c).value);
    Then(FirstHalf(ExprCode(addr, RAX, c).value), SecondHalf(ExprCode(len, RAX, c).value), m3, m7, syms);
  }

  /** Memory through the two evaluations and the three stores. */
  lemma PairMemory(m: Machine, a: Mem, memA: Mem, memB: Mem, last: Mem, base: int, r: Ring, cell: Cell, v: Word,
                   depth: nat, syms: Syms)
    requires RingPlaced(m, base, |r.cells|, depth, syms) && Fits(base, r) && RingAt(a, base, r) &&
             SavedRegs(a, m, m.regs[RSP], TEMPS)
    requires SameOutside(m.mem, a, m.regs[RSP] as int - 32, m.regs[RSP])
    requires SameOutside(a, memA, m.regs[RSP] as int - 32 - 8 * depth, m.regs[RSP] as int - 32)
    requires SameOutside(Store64(memA, Slot(base, r), cell.0), memB, m.regs[RSP] as int - 32 - 8 * depth,
             m.regs[RSP] as int - 32)
    requires last == Store(Store64(memB, Slot(base, r) as int + 8, cell.1), base, 4, v)
    ensures RingWith(last, base, v % TWO32, r.(cells := r.cells[r.head := cell])) &&
            SavedRegs(last, m, m.regs[RSP], TEMPS)
    ensures forall x: int | !(base <= x < base + RingSize(|r.cells|)) &&
                            !(m.regs[RSP] as int - 32 - 8 * depth <= x < m.regs[RSP]) :: Rd(m.mem, x) == Rd(last, x)
  {
    hide Store, Store64, Load64, RingAt, RingWith, SavedRegs;
    RingKept(a, memA, base, r);
    HeadStored(memA, memB, base, r, cell, v);
    SlotWritten(memA, base, r, cell.0);
    SavedAcross(a, last, m, m.regs[RSP], TEMPS);
  }

  lemma StoredAbove(m: Mem, memA: Mem, lo: int, at: int, v: Word)
    requires SameFrom(m, memA, lo)
    ensures SameFrom(Store64(m, at, v), Store64(memA, at, v), lo)
  {
    hide LE;
    forall x | x >= lo
      ensures Rd(Store64(m, at, v), x) == Rd(Store64(memA, at, v), x)
    {
      RdWrite(m, at, LE(v, 8), x);
      RdWrite(memA, at, LE(v, 8), x);
    }
  }

  lemma SlotWritten(m: Mem, base: int, r: Ring, v: Word)
    requires Fits(base, r)
    ensures SameOutside(m, Store64(m, Slot(base, r), v), base, base + RingSize(|r.cells|))
  {
    hide Load64;
    LoadStore64(m, Slot(base, r), v);
  }

  /** `dma_ring_push`, for any operands: full, only the status changes. Otherwise the head slot receives what the
      operands see, the head word is the next position masked by what r11 then holds, r12 is lost to compound
      operands, and every other register is kept. */
  lemma PushLeaves(addr: Expr, len: Expr, c: Ctx, m: Machine, base: int, r: Ring, syms: Syms) returns (t: Machine)
    requires RingPlaced(m, base, |r.cells|, PushDepth(addr, len), syms) && RingAt(m.mem, base, r) && Fits(base, r)
    requires WellFormed(c) && Emitted(addr, len, c) && Readable(addr, c, m, m.regs[RSP], syms) &&
             Readable(len, c, m, m.regs[RSP], syms)
    ensures RunPush(addr, len, c, m, syms) == Some(t)
    ensures Following(r.head, |r.cells|) == r.tail ==> t.regs == m.regs[RAX := 1] && RingAt(t.mem, base, r)
    ensures Following(r.head, |r.cells|) != r.tail ==>
              && t.regs[RAX] == 0 &&
                   t.regs[R12] == R12After(len, AddrR12(addr, c, m, base, r, syms), c, AtLen(addr, c, m, base, r, syms),
                   syms)
              && RingWith(t.mem, base, NewHead(addr, len, c, m, base, r, syms) % TWO32,
                          r.(cells := r.cells[r.head := CellSeen(addr, len, c, m, base, r, syms)]))
    ensures forall q: Reg | q != RAX && q != R12 :: t.regs[q] == m.regs[q]
    ensures OnlyRing(m, t, base, |r.cells|, PushDepth(addr, len))
  {
    hide Run, RingAt, RingWith, Readable, ExprCode, SavedRegs, PushBody, PushTest, Pops, Holds, WellFormed, Seen,
      R12After, Depth, AddrR12, AtLen, NewHead, CellSeen;
    var m3 := Tested(m, base, r, PushDepth(addr, len), syms);
    if Following(r.head, |r.cells|) == r.tail {
      FailRuns(m3, syms);
      t := PopsOver(TEMPS, m3.Set(RAX, 1), m, syms);
      assert t.regs == m.regs[RAX := 1];
    } else {
      var m4 := PairStored(addr, len, c, m, m3, base, r, syms);
      t := PopsOver(TEMPS, m4, m, syms);
    }
  }

  /** The statement pushes the pair its operands stand for, exactly when the ring is full, or the operands are seen
      as their values and the mask that meets the head is as good as the ring's own. */
  lemma PushRightIff(addr: Expr, len: Expr, c: Ctx, m: Machine, base: int, r: Ring, syms: Syms) returns (t: Machine)
    requires RingPlaced(m, base, |r.cells|, PushDepth(addr, len), syms) && RingAt(m.mem, base, r) && Fits(base, r)
    requires WellFormed(c) && Emitted(addr, len, c) && Readable(addr, c, m, m.regs[RSP], syms) &&
             Readable(len, c, m, m.regs[RSP], syms)
    ensures RunPush(addr, len, c, m, syms) == Some(t)
    ensures var want := (Wrap(Value(addr, c, m, syms)), Wrap(Value(len, c, m, syms)));
            var (status, r') := PushTo(r, want);
            && t.regs[RAX] == status
            && (RingAt(t.mem, base, r') <==>
                  Following(r.head, |r.cells|) == r.tail ||
                  (CellSeen(addr, len, c, m, base, r, syms) == want &&
                   NewHead(addr, len, c, m, base, r, syms) % TWO32 == Following(r.head, |r.cells|)))
  {
    hide RunPush, RingAt, RingWith, Readable, ExprCode, WellFormed, Value, R12After, Depth, AddrR12, AtLen, NewHead,
      CellSeen;
    t := PushLeaves(addr, len, c, m, base, r, syms);
    if Following(r.head, |r.cells|) != r.tail {
      PushedIff(t.mem, base, NewHead(addr, len, c, m, base, r, syms) % TWO32, r,
        CellSeen(addr, len, c, m, base, r, syms),
                (Wrap(Value(addr, c, m, syms)), Wrap(Value(len, c, m, syms))));
    }
  }

  // ---- operands that are seen as their values ----

  /** Operands that read none of the registers the code keeps its own values in. */
  predicate Steady(e: Expr, c: Ctx) {
    match e
    case RegName(n) => Resolve(n).Some? && Resolve(n).value !in {RAX, R8, R9, R10}
    case Ident(n) => n in c.args ==> c.args[n] !in {RAX, R8, R9, R10}
    case Bin(_, l, r) => Steady(l, c) && Steady(r, c)
    case _ => true
  }

  /** Locals it reads do not lie in the ring. */
  ghost predicate LocalsOutside(e: Expr, c: Ctx, m: Machine, base: int, n: nat) {
    match e
    case Ident(x) =>
      x !in c.args && x in c.locals ==>
        var a := Wrap(m.regs[RBP] + c.locals[x]); a + 8 <= base || base + RingSize(n) <= a
    case Bin(_, l, r) => LocalsOutside(l, c, m, base, n) && LocalsOutside(r, c, m, base, n)
    case _ => true
  }

  lemma {:induction false} SteadyValue(e: Expr, c: Ctx, m: Machine, m': Machine, base: int, n: nat, syms: Syms)
    requires Steady(e, c) && LocalsOutside(e, c, m, base, n)
    requires forall q: Reg | q !in {RAX, R8, R9, R10} :: m'.regs[q] == m.regs[q]
    requires SameOutside(m.mem, m'.mem, base, base + RingSize(n))
    ensures Value(e, c, m', syms) == Value(e, c, m, syms)
  {
    hide Resolve, Load64;
    if e.Bin? {
      SteadyValue(e.left, c, m, m', base, n, syms);
      SteadyValue(e.right, c, m, m', base, n, syms);
    } else if e.Ident? && e.name !in c.args && e.name in c.locals {
      Load64Same(m.mem, m'.mem, Wrap(m.regs[RBP] + c.locals[e.name]));
    }
  }

  /** Both operands steady, and r12 read in time. */
  ghost predicate SteadyPair(addr: Expr, len: Expr, c: Ctx, m: Machine, base: int, n: nat) {
    && Steady(addr, c) && Steady(len, c) && R12Intact(addr) && R12Intact(len) && (Compound(addr) ==> !ReadsR12(len))
    && LocalsOutside(addr, c, m, base, n) && LocalsOutside(len, c, m, base, n)
  }

  lemma CellIs(addr: Expr, len: Expr, c: Ctx, m: Machine, base: int, r: Ring, syms: Syms)
    requires Fits(base, r) && WellFormed(c) && SteadyPair(addr, len, c, m, base, |r.cells|)
    ensures CellSeen(addr, len, c, m, base, r, syms) == (Wrap(Value(addr, c, m, syms)), Wrap(Value(len, c, m, syms)))
    ensures !Compound(addr) ==> AddrR12(addr, c, m, base, r, syms) == m.regs[R12]
  {
    hide Seen, R12After, Value, Steady, LocalsOutside, R12Intact, WellFormed, Store64;
    var m1, m2 := AtAddr(m, base, r), AtLen(addr, c, m, base, r, syms);
    SlotWritten(m.mem, base, r, AddrSeen(addr, c, m, base, r, syms));
    SteadyValue(addr, c, m, m1, base, |r.cells|, syms);
    SteadyValue(len, c, m, m2, base, |r.cells|, syms);
    SeenIsValue(addr, m.regs[R12], c, m1, syms);
    SeenIsValue(len, AddrR12(addr, c, m, base, r, syms), c, m2, syms);
  }

  /** `dma_ring_push` of simple operands (numbers, constants, registers, locals, addresses) outside the
      registers the code uses: rax reports the status, the ring in memory is the ring after the push, and every
      other register is kept, r8 to r11 included. */
  lemma PushCorrect(addr: Expr, len: Expr, c: Ctx, m: Machine, base: int, r: Ring, syms: Syms) returns (t: Machine)
    requires RingPlaced(m, base, |r.cells|, 0, syms) && RingAt(m.mem, base, r)
    requires WellFormed(c) && Emitted(addr, len, c) && Readable(addr, c, m, m.regs[RSP], syms) &&
             Readable(len, c, m, m.regs[RSP], syms)
    requires SteadyPair(addr, len, c, m, base, |r.cells|) && !Compound(addr) && !Compound(len)
    ensures RunPush(addr, len, c, m, syms) == Some(t)
    ensures var (status, r') := PushTo(r, (Wrap(Value(addr, c, m, syms)), Wrap(Value(len, c, m, syms))));
            t.regs[RAX] == status && RingAt(t.mem, base, r')
    ensures forall q: Reg | q != RAX :: t.regs[q] == m.regs[q]
    ensures OnlyRing(m, t, base, |r.cells|, 0)
  {
    hide RunPush, RingAt, RingWith, Readable, ExprCode, WellFormed, Value, SteadyPair, CellSeen, AddrR12, AtLen;
    assert RingOk(r) by { RingIsOk(m.mem, base, r); }
    SimpleDepth(addr);
    SimpleDepth(len);
    t := PushRightIff(addr, len, c, m, base, r, syms);
    var t' := PushLeaves(addr, len, c, m, base, r, syms);
    CellIs(addr, len, c, m, base, r, syms);
    NextIsMasked(r.head, |r.cells|);
    NoWrapHead(addr, len, c, m, base, r, syms);
    SimpleR12(len, AddrR12(addr, c, m, base, r, syms), c, AtLen(addr, c, m, base, r, syms), syms);
  }

  lemma SimpleDepth(e: Expr)
    requires !Compound(e)
    ensures Depth(e) == 0
  {
  }

  lemma SimpleR12(e: Expr, x: Word, c: Ctx, m: Machine, syms: Syms)
    requires !Compound(e)
    ensures R12After(e, x, c, m, syms) == x
  {
  }

  lemma NoWrapHead(addr: Expr, len: Expr, c: Ctx, m: Machine, base: int, r: Ring, syms: Syms)
    requires Fits(base, r) && !Compound(addr) && !Compound(len) &&
             AluResult(AND, r.head + 1, |r.cells| - 1) == Following(r.head, |r.cells|)
    ensures NewHead(addr, len, c, m, base, r, syms) % TWO32 == Following(r.head, |r.cells|)
  {
    hide Logic;
    SmallMod(Following(r.head, |r.cells|), TWO32);
  }

  /** With a compound operand the mask in r11 is overwritten by the operand's value: the pair is stored, but the
      head becomes the next position masked by that value, and the push is right exactly when the ring is full, or
      the operands are seen as their values and this comes to the same. Steady operands are seen as their values. */
  lemma CompoundPushIff(addr: Expr, len: Expr, c: Ctx, m: Machine, base: int, r: Ring, syms: Syms) returns (t: Machine)
    requires RingPlaced(m, base, |r.cells|, PushDepth(addr, len), syms) && RingAt(m.mem, base, r) && Fits(base, r)
    requires WellFormed(c) && Emitted(addr, len, c) && Readable(addr, c, m, m.regs[RSP], syms) &&
             Readable(len, c, m, m.regs[RSP], syms)
    requires Compound(addr) || Compound(len)
    ensures RunPush(addr, len, c, m, syms) == Some(t)
    ensures var want := (Wrap(Value(addr, c, m, syms)), Wrap(Value(len, c, m, syms)));
            var seen := CellSeen(addr, len, c, m, base, r, syms);
            var v := if Compound(len) then seen.1 else seen.0;
            && (RingAt(t.mem, base, PushTo(r, want).1) <==>
                Following(r.head, |r.cells|) == r.tail ||
                (seen == want && Logic(BitAnd, r.head + 1, v) % TWO32 == Following(r.head, |r.cells|)))
            && (SteadyPair(addr, len, c, m, base, |r.cells|) ==> seen == want)
  {
    hide RunPush, RingAt, RingWith, Readable, ExprCode, WellFormed, Value, SteadyPair, PushDepth, Logic, PushTo;
    t := PushRightIff(addr, len, c, m, base, r, syms);
    if SteadyPair(addr, len, c, m, base, |r.cells|) { CellIs(addr, len, c, m, base, r, syms); }
  }
}
