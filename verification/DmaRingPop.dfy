/** `dma_ring_pop`: what the emitted instructions leave for any destinations, and when that is the popped pair. */
module DmaRingPop {
  import opened Wrappers
  import opened Words
  import opened Memory
  import opened Regs
  import opened Isa
  import opened Assembly
  import opened Semantics
  import opened StmtProofs
  import opened SourceLanguage
  import opened MachineSteps
  import opened Flow
  import opened DmaRing
  import opened DmaRingMemory
  import opened DmaRingPush

  // ---- the code ----

  const LOAD_ENDS: seq<Item> := [LeaTo(R8, RING), Ins(LoadI(W32, R9, At(R8, 0))), Ins(LoadI(W32, R10, At(R8, 4))),
    Ins(Alu(CMP, R9, R10))]
  const ADVANCE_TAIL: seq<Item> :=
    [Ins(AluImm(ADD, R10, 1)), Ins(Alu(AND, R10, R11)), Ins(StoreI(W32, At(R8, 4), R10)), Ins(Alu(XOR, RAX, RAX))]

  /** Code of the branch taken when the ring is not empty. */
  function TakePair(da: Reg, dl: Reg): seq<Item> {
    [Ins(LoadI(W32, R11, At(R8, 8)))] + (SlotAddress(R10) +
    ([Ins(LoadI(W64, da, At(RAX, 0))), Ins(LoadI(W64, dl, At(RAX, 8)))] + ADVANCE_TAIL))
  }

  function PopTest(): seq<Item> {
    Pushes(TEMPS) + LOAD_ENDS
  }

  /** The statement, with its two fresh labels. */
  function PopCode(empty: string, ok: string, da: Reg, dl: Reg): seq<Item> {
    BranchCode(PopTest(), EQ, empty, TakePair(da, dl), ok, FAIL) + Pops(TEMPS)
  }

  /** What it does. */
  function RunPop(da: Reg, dl: Reg, m: Machine, syms: Syms): Option<Machine> {
    match RunBranch(PopTest(), EQ, TakePair(da, dl), FAIL, m, syms)
    case None => None
    case Some(u) => Run(Pops(TEMPS), u, syms)
  }

  /** The emitted items do this wherever they stand. */
  lemma PopReaches(x: Listing, pc: nat, empty: string, ok: string, da: Reg, dl: Reg, m: Machine, t: Machine, syms: Syms)
    requires Unique(x.items) && Stands(x, pc, PopCode(empty, ok, da, dl)) && RunPop(da, dl, m, syms) == Some(t)
    ensures Reaches(x, Spot(pc, m), Spot(pc + |PopCode(empty, ok, da, dl)|, t), syms)
  {
    hide Run, RunBranch, BranchCode, PopTest, TakePair, Pops, Stands, Unique, Reaches;
    var branch := BranchCode(PopTest(), EQ, empty, TakePair(da, dl), ok, FAIL);
    var u := RunBranch(PopTest(), EQ, TakePair(da, dl), FAIL, m, syms).value;
    StandsPart(x, pc, branch, Pops(TEMPS));
    BranchReaches(x, pc, PopTest(), EQ, empty, TakePair(da, dl), ok, FAIL, m, u, syms);
    ReachRun(x, pc + |branch|, Pops(TEMPS), u, t, syms);
    ReachTrans(x, Spot(pc, m), Spot(pc + |branch|, u), Spot(pc + |branch| + |Pops(TEMPS)|, t), syms);
  }

  /** The empty test. */
  lemma EmptyTested(m: Machine, base: int, r: Ring, syms: Syms) returns (t: Machine)
    requires RingAt(m.mem, base, r) && RING in syms && syms[RING] == base && 0 <= base && base + 16 <= TWO64 &&
             |r.cells| <= TWO32
    ensures Run(LOAD_ENDS, m, syms) == Some(t)
    ensures Same(t, m.regs[R8 := base][R9 := r.head][R10 := r.tail], m.mem)
    ensures Holds(EQ, t.flags) == Some(r.head == r.tail)
  {
    hide Load, LoadW, CellAt, AluFlags, Holds;
    var m1 := m.Set(R8, base);
    var m2 := m1.Set(R9, r.head);
    var m3 := m2.Set(R10, r.tail);
    t := m3.(flags := AluFlags(CMP, m3.regs[R9], m3.regs[R10]));
    Read32(m1, R9, R8, 0, syms);
    Read32(m2, R10, R8, 4, syms);
    assert Step(Ins(Alu(CMP, R9, R10)), m3, syms) == Some(t);
    Run4(LOAD_ENDS[0], LOAD_ENDS[1], LOAD_ENDS[2], LOAD_ENDS[3], m, m1, m2, m3, t, syms);
    CompareMeaning(EQ, m3.regs[R9], m3.regs[R10]);
  }

  /** The machine after the test of a pop. */
  lemma Tested(m: Machine, base: int, r: Ring, syms: Syms) returns (m1: Machine, t: Machine)
    requires RingPlaced(m, base, |r.cells|, 0, syms) && RingAt(m.mem, base, r)
    ensures Run(Pushes(TEMPS), m, syms) == Some(m1) && Run(PopTest(), m, syms) == Some(t)
    ensures t.mem == m1.mem && RingAt(t.mem, base, r)
    ensures t.regs == m.regs[RSP := m.regs[RSP] as int - 32][R8 := base][R9 := r.head][R10 := r.tail]
    ensures SavedRegs(t.mem, m, m.regs[RSP], TEMPS) && SameOutside(m.mem, t.mem, m.regs[RSP] as int - 32, m.regs[RSP])
    ensures Holds(EQ, t.flags) == Some(r.head == r.tail)
  {
    hide Run, RingAt, SavedRegs, Pushes, Holds;
    assert RingOk(r) by { RingIsOk(m.mem, base, r); }
    m1 := PushesRun(TEMPS, m, syms);
    RingKept(m.mem, m1.mem, base, r);
    t := EmptyTested(m1, base, r, syms);
    Then(Pushes(TEMPS), LOAD_ENDS, m, m1, syms);
  }

  // ---- any destinations ----

  /** The second half as the code loads it: through rax, which the first half may have replaced. */
  function LenTaken(da: Reg, r: Ring, saved: Mem): Word
    requires RingOk(r)
  {
    var c := r.cells[r.tail];
    if da == RAX then Load64(saved, Wrap(c.0 as int + 8)) else c.1
  }

  /** The value a register of the code holds after the two loads. */
  function Held(q: Reg, own: Word, da: Reg, dl: Reg, r: Ring, saved: Mem): Word
    requires RingOk(r)
  {
    if q == dl then LenTaken(da, r, saved) else if q == da then r.cells[r.tail].0 else own
  }

  /** Where the new tail is stored, and what is stored. */
  function TailPlace(da: Reg, dl: Reg, base: int, r: Ring, saved: Mem): Word
    requires RingOk(r)
  {
    Wrap(Held(R8, Wrap(base), da, dl, r, saved) as int + 4)
  }

  function TailValue(da: Reg, dl: Reg, r: Ring, saved: Mem): nat
    requires RingOk(r) && |r.cells| <= TWO32
  {
    (Held(R10, r.tail, da, dl, r, saved) as int + 1) % |r.cells|
  }

  lemma AddWraps(m: Machine, d: Reg, v: nat, syms: Syms) returns (t: Machine)
    requires v < TWO64
    ensures Step(Ins(AluImm(ADD, d, v)), m, syms) == Some(t) && Same(t, m.regs[d := Wrap(m.regs[d] as int + v)], m.mem)
  {
    hide AluFlags;
    t := m.(flags := AluFlags(ADD, m.regs[d], Wrap(v))).Set(d, Wrap(m.regs[d] as int + v));
  }

  lemma StoreWraps32(m: Machine, b: Reg, disp: int, s: Reg, syms: Syms)
    ensures Step(Ins(StoreI(W32, At(b, disp), s)), m,
            syms) == Some(m.(mem := Store(m.mem, Wrap(m.regs[b] as int + disp), 4, m.regs[s])))
  {
    hide Store;
  }

  lemma ReadWraps64(m: Machine, d: Reg, b: Reg, disp: int, syms: Syms)
    ensures Step(Ins(LoadI(W64, d, At(b, disp))), m,
            syms) == Some(m.Set(d, Load64(m.mem, Wrap(m.regs[b] as int + disp))))
  {
  }

  lemma WrapModulo(x: Word, n: nat)
    requires 0 < n <= TWO32 && exists k: nat :: n == Pow2(k)
    ensures Wrap(x as int + 1) % n == (x as int + 1) % n
  {
    hide Pow2;
    if x as int + 1 == TWO64 {
      WordMultiple(n);
      assert Wrap(TWO64) == 0;
    }
  }

  lemma WordMultiple(n: nat)
    requires 0 < n <= TWO32 && exists k: nat :: n == Pow2(k)
    ensures TWO64 % n == 0
  {
    hide Pow2;
    var k: nat :| n == Pow2(k);
    if k > 32 { BigPower(k); }
    Pow2At();
    Pow2Add(64 - k, k);
    DivModUnique(TWO64, n, Pow2(64 - k), 0);
  }

  lemma BigPower(k: nat)
    requires k > 32
    ensures Pow2(k) > TWO32
  {
    Pow2Add(32, k - 32);
    Pow2At();
    assert Pow2(k - 32) == 2 * Pow2(k - 33);
  }

  /** Advancing the tail held in r10, wherever r8 points. */
  lemma TailAdvanced(m: Machine, n: nat, syms: Syms) returns (t: Machine)
    requires 0 < n <= TWO32 && m.regs[R11] == n - 1 && exists k: nat :: n == Pow2(k)
    ensures Run(ADVANCE_TAIL, m, syms) == Some(t)
    ensures var v := (m.regs[R10] as int + 1) % n;
            Same(t, m.regs[R10 := v][RAX := 0], Store(m.mem, Wrap(m.regs[R8] as int + 4), 4, v))
  {
    hide AluFlags, AluResult, Store, Run, Pow2;
    WrapModulo(m.regs[R10], n);
    var v := (m.regs[R10] as int + 1) % n;
    var m1 := AddWraps(m, R10, 1, syms);
    MaskIsModulo(m1.regs[R10], n);
    var m2 := AndStep(m1, R10, R11, v, syms);
    StoreWraps32(m2, R8, 4, R10, syms);
    var m3 := m2.(mem := Store(m2.mem, Wrap(m2.regs[R8] as int + 4), 4, v));
    t := Cleared(m3, syms);
    Run1(Ins(Alu(XOR, RAX, RAX)), m3, syms);
    hide Step;
    Run4(ADVANCE_TAIL[0], ADVANCE_TAIL[1], ADVANCE_TAIL[2], ADVANCE_TAIL[3], m, m1, m2, m3, t, syms);
  }

  /** The branch taken when the ring is not empty, for any destinations. */
  lemma PairTaken(da: Reg, dl: Reg, m: Machine, base: int, r: Ring, syms: Syms) returns (t: Machine)
    requires RingAt(m.mem, base, r) && Fits(base, r) && (exists k: nat :: |r.cells| == Pow2(k))
    requires m.regs[R8] == base && m.regs[R10] == r.tail && da in USER && dl in USER
    ensures Run(TakePair(da, dl), m, syms) == Some(t)
    ensures t.mem == Store(m.mem, TailPlace(da, dl, base, r, m.mem), 4, TailValue(da, dl, r, m.mem))
    ensures t.regs[RAX] == 0 && forall q: Reg | q !in {RAX, R10, R11} ::
            t.regs[q] == Held(q, m.regs[q], da, dl, r, m.mem)
  {
    hide Run, Store, Load, Load64, RingAt, Pow2, SlotAddress, ADVANCE_TAIL, Step;
    var n, s := |r.cells|, SlotAt(base, r.tail);
    MaskRead(m, base, r, syms);
    var m1 := m.Set(R11, n - 1);
    Run1(Ins(LoadI(W32, R11, At(R8, 8))), m, syms);
    var m2 := SlotAddressed(m1, R10, base, syms);
    CellRead(m.mem, base, r);
    ReadWraps64(m2, da, RAX, 0, syms);
    NoWrap(s);
    NoWrap(s + 8);
    NoWrap(base);
    var m3 := m2.Set(da, r.cells[r.tail].0);
    ReadWraps64(m3, dl, RAX, 8, syms);
    var m4 := m3.Set(dl, LenTaken(da, r, m.mem));
    var loads := [Ins(LoadI(W64, da, At(RAX, 0))), Ins(LoadI(W64, dl, At(RAX, 8)))];
    Run2(loads[0], loads[1], m2, syms);
    t := TailAdvanced(m4, n, syms);
    Then(loads, ADVANCE_TAIL, m2, m4, syms);
    Then(SlotAddress(R10), loads + ADVANCE_TAIL, m1, m2, syms);
    Then([Ins(LoadI(W32, R11, At(R8, 8)))], SlotAddress(R10) + (loads + ADVANCE_TAIL), m, m1, syms);
  }

  lemma MaskRead(m: Machine, base: int, r: Ring, syms: Syms)
    requires RingAt(m.mem, base, r) && Fits(base, r) && m.regs[R8] == base
    ensures Step(Ins(LoadI(W32, R11, At(R8, 8))), m, syms) == Some(m.Set(R11, |r.cells| - 1))
  {
    hide Load;
    Read32(m, R11, R8, 8, syms);
  }

  lemma CellRead(m: Mem, base: int, r: Ring)
    requires RingAt(m, base, r)
    ensures Load64(m, SlotAt(base, r.tail)) == r.cells[r.tail].0 &&
            Load64(m, SlotAt(base, r.tail) + 8) == r.cells[r.tail].1
  {
    hide Load64, Load;
    assert CellAt(m, base, r.tail, r.cells[r.tail]);
  }

  /** `dma_ring_pop` from a ring that is not empty, for any destinations. `saved` is memory after the four saves. rax
      ends as the status; r8 to r11 come from the stack words, whatever these hold by then; the other registers
      receive what was loaded into them; and one word is written, the tail as r10 then has it, where r8 points. */
  lemma PopLeaves(da: Reg, dl: Reg, m: Machine, base: int, r: Ring, syms: Syms) returns (saved: Mem, t: Machine)
    requires RingPlaced(m, base, |r.cells|, 0, syms) && RingAt(m.mem, base, r) && Fits(base, r) && r.head != r.tail
    requires da in USER && dl in USER
    ensures RunPop(da, dl, m, syms) == Some(t)
    ensures RingAt(saved, base, r) && SavedRegs(saved, m, m.regs[RSP], TEMPS) &&
            SameOutside(m.mem, saved, m.regs[RSP] as int - 32, m.regs[RSP])
    ensures t.mem == Store(saved, TailPlace(da, dl, base, r, saved), 4, TailValue(da, dl, r, saved))
    ensures t.regs[RAX] == 0 && t.regs[RSP] == m.regs[RSP]
    ensures forall q: Reg | q !in {RAX, R8, R9, R10, R11, RSP} :: t.regs[q] == Held(q, m.regs[q], da, dl, r, saved)
    ensures forall i | 0 <= i < 4 :: t.regs[TEMPS[i]] == Load64(t.mem, m.regs[RSP] - 8 * (i + 1))
  {
    hide Run, RingAt, SavedRegs, TakePair, PopTest, Holds, Store, Load64, Pushes, LenTaken, TailPlace, TailValue;
    var m1, m2 := Tested(m, base, r, syms);
    saved := m2.mem;
    var m3 := PairTaken(da, dl, m2, base, r, syms);
    t := PopsLoad(m3, m, syms);
  }

  /** The four restores, whatever the words hold. */
  lemma PopsLoad(m: Machine, was: Machine, syms: Syms) returns (t: Machine)
    requires 32 <= was.regs[RSP] && m.regs[RSP] == was.regs[RSP] as int - 32
    ensures Run(Pops(TEMPS), m, syms) == Some(t) && t.mem == m.mem && t.regs[RSP] == was.regs[RSP]
    ensures forall i | 0 <= i < 4 :: t.regs[TEMPS[i]] == Load64(m.mem, was.regs[RSP] - 8 * (i + 1))
    ensures forall q: Reg | q !in {R8, R9, R10, R11, RSP} :: t.regs[q] == m.regs[q]
  {
    hide Run, Load64, Pops;
    var sp: int := was.regs[RSP];
    var mix := m.(regs := m.regs[RSP := sp][R8 := Load64(m.mem, sp - 8)][R9 := Load64(m.mem, sp - 16)]
                                [R10 := Load64(m.mem, sp - 24)][R11 := Load64(m.mem, sp - 32)]);
    assert SavedRegs(m.mem, mix, sp, TEMPS) by {
      assert TEMPS[0] == R8 && TEMPS[1] == R9 && TEMPS[2] == R10 && TEMPS[3] == R11;
    }
    t := PopsRun(TEMPS, m, mix, syms);
  }

  // ---- when it is the pop ----

  /** The status, the pair in its destinations, and the popped ring. */
  ghost predicate Delivered(da: Reg, dl: Reg, t: Machine, base: int, r: Ring)
    requires RingOk(r)
  {
    && t.regs[RAX] == 0 && t.regs[da] == r.cells[r.tail].0 && t.regs[dl] == r.cells[r.tail].1
    && RingAt(t.mem, base, r.(tail := Following(r.tail, |r.cells|)))
  }

  /** A destination that the code overwrites or restores keeps `v` only by coincidence. */
  predicate EndsAs(q: Reg, v: Word, m: Machine) {
    (q == RAX ==> v == 0) && (q in TEMPS ==> m.regs[q] == v)
  }

  /** Destinations the surrounding code does not use. */
  predicate FreeDest(r: Reg) {
    r !in {RAX, R8, R9, R10, R11, RSP}
  }

  lemma StackIntact(m: Machine, saved: Mem, mem: Mem, base: int, r: Ring, syms: Syms)
    requires RingPlaced(m, base, |r.cells|, 0, syms) && RingOk(r) && SavedRegs(saved, m, m.regs[RSP], TEMPS) &&
             SameOutside(saved, mem, base, base + 8)
    ensures SavedRegs(mem, m, m.regs[RSP], TEMPS)
  {
    hide SavedRegs;
    SavedAcross(saved, mem, m, m.regs[RSP], TEMPS);
  }

  /** A pop from a ring that is not empty delivers the pair and pops the ring exactly when: the second half is read
      through the right address, destinations the code overwrites or restores hold the right values anyway, one
      destination for both halves gets equal ones, and the tail store makes the header that of the popped ring. */
  lemma PopRightIff(da: Reg, dl: Reg, m: Machine, base: int, r: Ring, syms: Syms) returns (saved: Mem, t: Machine)
    requires RingPlaced(m, base, |r.cells|, 0, syms) && RingAt(m.mem, base, r) && Fits(base, r) && r.head != r.tail
    requires da in USER && dl in USER
    ensures RunPop(da, dl, m, syms) == Some(t) && SameOutside(m.mem, saved, m.regs[RSP] as int - 32, m.regs[RSP])
    ensures var c := r.cells[r.tail];
            Delivered(da, dl, t, base, r) <==>
            && (FreeDest(dl) ==> LenTaken(da, r, saved) == c.1)
            && EndsAs(da, c.0, m) && EndsAs(dl, c.1, m) && (da == dl ==> c.0 == c.1)
            && TailWritten(r, base, TailPlace(da, dl, base, r, saved), TailValue(da, dl, r, saved))
  {
    hide RunPop, RingAt, SavedRegs, Store, Load64, LenTaken, TailPlace, TailValue, TailWritten;
    saved, t := PopLeaves(da, dl, m, base, r, syms);
    PoppedIff(saved, base, r, TailPlace(da, dl, base, r, saved), TailValue(da, dl, r, saved));
    if TailWritten(r, base, TailPlace(da, dl, base, r, saved), TailValue(da, dl, r, saved)) {
      StackIntact(m, saved, t.mem, base, r, syms);
      TempsBack(m, t);
    }
  }

  lemma TempsBack(m: Machine, t: Machine)
    requires SavedRegs(t.mem, m, m.regs[RSP], TEMPS)
    requires forall i | 0 <= i < 4 :: t.regs[TEMPS[i]] == Load64(t.mem, m.regs[RSP] as int - 8 * (i + 1))
    ensures forall q | q in TEMPS :: t.regs[q] == m.regs[q]
  {
    hide Load64;
  }

  lemma FreeIsRight(da: Reg, dl: Reg, m: Machine, base: int, r: Ring, saved: Mem)
    requires Fits(base, r) && FreeDest(da) && FreeDest(dl)
    ensures LenTaken(da, r, saved) == r.cells[r.tail].1 && EndsAs(da, r.cells[r.tail].0, m) &&
            EndsAs(dl, r.cells[r.tail].1, m)
    ensures TailWritten(r, base, TailPlace(da, dl, base, r, saved), TailValue(da, dl, r, saved))
    ensures TailPlace(da, dl, base, r, saved) as int == base + 4
  {
    hide TailWritten, Load64;
    NoWrap(base);
    NoWrap(base + 4);
    TailAtPlace(r, base);
  }

  /** Neither half is zero, nor what r8 to r10 hold, and they differ. */
  predicate NoCoincidence(c: Cell, m: Machine) {
    c.0 != 0 && c.1 != 0 && c.0 != c.1 && forall q | q in TEMPS :: m.regs[q] != c.0 && m.regs[q] != c.1
  }

  /** So, coincidences of the values aside, exactly two different destinations outside rax and r8 to r10 receive the
      pair; and such destinations always do. */
  lemma PopFreeIff(da: Reg, dl: Reg, m: Machine, base: int, r: Ring, syms: Syms) returns (t: Machine)
    requires RingPlaced(m, base, |r.cells|, 0, syms) && RingAt(m.mem, base, r) && Fits(base, r) && r.head != r.tail
    requires da in USER && dl in USER
    ensures RunPop(da, dl, m, syms) == Some(t)
    ensures FreeDest(da) && FreeDest(dl) && da != dl ==> Delivered(da, dl, t, base, r)
    ensures NoCoincidence(r.cells[r.tail], m) ==> (Delivered(da, dl, t, base, r) <==>
            FreeDest(da) && FreeDest(dl) && da != dl)
  {
    hide RunPop, RingAt, LenTaken, TailPlace, TailValue, TailWritten, Delivered;
    var saved, t' := PopRightIff(da, dl, m, base, r, syms);
    t := t';
    if FreeDest(da) && FreeDest(dl) {
      FreeIsRight(da, dl, m, base, r, saved);
    } else {
      assert da == RAX || da in TEMPS || dl == RAX || dl in TEMPS;
    }
  }

  /** A pop from an empty ring reports 1 and changes nothing else, whatever its destinations. */
  lemma PopEmpty(da: Reg, dl: Reg, m: Machine, base: int, r: Ring, syms: Syms) returns (t: Machine)
    requires RingPlaced(m, base, |r.cells|, 0, syms) && RingAt(m.mem, base, r) && Fits(base, r) && r.head == r.tail
    ensures RunPop(da, dl, m, syms) == Some(t)
    ensures t.regs == m.regs[RAX := 1] && RingAt(t.mem, base, r) &&
            SameOutside(m.mem, t.mem, m.regs[RSP] as int - 32, m.regs[RSP])
  {
    hide Run, RingAt, SavedRegs, TakePair, PopTest, Holds, Pushes, Pops;
    var m1, m2 := Tested(m, base, r, syms);
    FailRuns(m2, syms);
    t := PopsOver(TEMPS, m2.Set(RAX, 1), m, syms);
    assert t.regs == m.regs[RAX := 1];
  }

  /** `dma_ring_pop` into two free registers: rax reports the status, a successful pop delivers the oldest pair, the
      ring in memory is the ring after the pop, and every other register is kept. */
  lemma PopCorrect(da: Reg, dl: Reg, m: Machine, base: int, r: Ring, syms: Syms) returns (t: Machine)
    requires RingPlaced(m, base, |r.cells|, 0, syms) && RingAt(m.mem, base, r) && da in USER && dl in USER &&
             FreeDest(da) && FreeDest(dl) && da != dl
    ensures RunPop(da, dl, m, syms) == Some(t)
    ensures var (status, c, r') := PopFrom(r);
            && t.regs[RAX] == status && RingAt(t.mem, base, r')
            && (c.Some? ==> t.regs[da] == c.value.0 && t.regs[dl] == c.value.1)
            && (c.None? ==> t.regs[da] == m.regs[da] && t.regs[dl] == m.regs[dl])
    ensures forall q: Reg | q !in {RAX, da, dl} :: t.regs[q] == m.regs[q]
    ensures OnlyRing(m, t, base, |r.cells|, 0)
  {
    hide RunPop, RingAt, SavedRegs, Store, TailPlace, TailValue, TailWritten, Load64;
    assert RingOk(r) by { RingIsOk(m.mem, base, r); }
    if r.head == r.tail {
      t := PopEmpty(da, dl, m, base, r, syms);
    } else {
      var saved, t' := PopLeaves(da, dl, m, base, r, syms);
      t := t';
      FreeIsRight(da, dl, m, base, r, saved);
      var t'' := PopFreeIff(da, dl, m, base, r, syms);
      PoppedIff(saved, base, r, TailPlace(da, dl, base, r, saved), TailValue(da, dl, r, saved));
      StackIntact(m, saved, t.mem, base, r, syms);
      TempsBack(m, t);
    }
  }
}
