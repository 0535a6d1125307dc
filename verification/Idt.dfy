/** The interrupt descriptor table as a map from vectors to handlers. */
module Idt {
  import opened Wrappers
  import opened Words
  import opened Memory
  import opened Regs
  import opened Isa
  import opened Assembly
  import opened Codegen
  import opened Semantics
  import opened StmtProofs
  import opened SourceLanguage
  import opened MachineSteps
  import opened Flow

  const IDT := "__data___idt"
  const IDTR := "__data___idtr"
  const DEFAULT_HANDLER := "__isr_default"
  const VECTORS: nat := 256
  const GATE: nat := 16
  const SELECTOR: Word := 0x08
  const TYPE: Word := 0x8E00

  // ---- the code ----

  function Store16(disp: int, s: Reg): Item {
    Ins(StoreI(W16, At(RDI, disp), s))
  }

  /** The writes of one gate: handler in rsi, gate address in rdi. */
  const LOW_PART: seq<Item> := [Store16(0, RSI), Ins(MovImm(RAX, SELECTOR)), Store16(2, RAX)]
  const TYPE_PART: seq<Item> := [Ins(MovImm(RAX, TYPE)), Store16(4, RAX)]
  const MID_PART: seq<Item> := [Ins(MovRR(RAX, RSI)), Ins(ShiftImm(SHR, RAX, 16)), Store16(6, RAX)]
  const HIGH_PART: seq<Item> := [Ins(MovRR(RAX, RSI)), Ins(ShiftImm(SHR, RAX, 32)), Ins(StoreI(W32, At(RDI, 8), RAX))]
  const ZERO_PART: seq<Item> := [Ins(Alu(XOR, RAX, RAX)), Ins(StoreI(W32, At(RDI, 12), RAX))]

  function GateWrites(): seq<Item> {
    LOW_PART + (TYPE_PART + (MID_PART + (HIGH_PART + ZERO_PART)))
  }

  /** Body of the filling loop, up to the test that ends it. */
  function FillBody(): seq<Item> {
    [Ins(MovRR(RAX, RSI)), Ins(StoreI(W64, At(RDI, 0), RAX))] +
    (GateWrites() + [Ins(AluImm(ADD, RDI, GATE)), Ins(AluImm(SUB, RCX, 1)), Ins(Alu(TEST, RCX, RCX))])
  }

  function Neq(): Cc {
    CondCode("neq").value
  }

  const ENTER_FILL: seq<Item> := [LeaTo(RSI, DEFAULT_HANDLER), LeaTo(RDI, IDT), Ins(MovImm(RCX, 256))]

  /** After the loop: limit and base for lidt. */
  const FILL_IDTR: seq<Item> :=
    [LeaTo(RAX, IDT), LeaTo(RDI, IDTR), Ins(MovImm(RCX, 4095))] + [Store16(0, RCX), Ins(StoreI(W64, At(RDI, 2), RAX))]

  /** A patch of one vector to the code at a label, between the saves and the restores. */
  function PatchCore(handler: string, vector: nat): seq<Item> {
    [LeaTo(RSI, handler), LeaTo(RDI, IDT), Ins(AluImm(ADD, RDI, GATE * vector))] + GateWrites()
  }

  const PATCH_REGS: seq<Reg> := [RAX, RDI, RSI]
  const INSTALL_REGS: seq<Reg> := [RAX, RCX, RDX, RDI, RSI]

  function PatchCode(handler: string, vector: nat): seq<Item> {
    Pushes(PATCH_REGS) + (PatchCore(handler, vector) + Pops(PATCH_REGS))
  }

  /** `idt_install` up to the `lidt` instruction; the pops of the saved registers follow it. */
  function InstallCode(loop: string): seq<Item> {
    Pushes(INSTALL_REGS) + (ENTER_FILL + (LoopCode(loop, FillBody(), Neq()) + FILL_IDTR))
  }

  /** Limit and base that `lidt [rdi]` reads. */
  function Lidt(m: Machine): (nat, Word) {
    (Load(m.mem, m.regs[RDI], 2), Load64(m.mem, m.regs[RDI] as int + 2))
  }

  /** All of `idt_install`: the machine after it, and what the table register was loaded with. */
  function RunInstall(m: Machine, syms: Syms): Option<(Machine, (nat, Word))> {
    match Run(Pushes(INSTALL_REGS) + ENTER_FILL, m, syms)
    case None => None
    case Some(m1) =>
      match RunLoop(FillBody(), Neq(), m1, syms, VECTORS)
      case None => None
      case Some(m2) =>
        match Run(FILL_IDTR, m2, syms)
        case None => None
        case Some(m3) =>
          match Run(Pops(INSTALL_REGS), m3, syms)
          case None => None
          case Some(m4) => Some((m4, Lidt(m3)))
  }

  // ---- gates, section 6.14.1 of the Intel SDM, Vol. 3A ----

  /** The handler a gate points to. */
  function Offset(m: Mem, a: int): nat {
    Load(m, a, 2) + 0x1_0000 * Load(m, a + 6, 2) + TWO32 * Load(m, a + 8, 4)
  }

  /** A present 64-bit interrupt gate of the kernel code segment to the handler. */
  ghost predicate GateIs(m: Mem, a: int, handler: Word) {
    && Offset(m, a) == handler && Load(m, a + 2, 2) == SELECTOR && Load(m, a + 4, 2) == TYPE && Load(m, a + 12, 4) == 0
  }

  lemma GateKept(m: Mem, m': Mem, a: int, h: Word)
    requires GateIs(m, a, h) && SameIn(m, m', a, a + GATE)
    ensures GateIs(m', a, h)
  {
    hide Load;
    LoadSame(m, m', a, 2);
    LoadSame(m, m', a + 2, 2);
    LoadSame(m, m', a + 4, 2);
    LoadSame(m, m', a + 6, 2);
    LoadSame(m, m', a + 8, 4);
    LoadSame(m, m', a + 12, 4);
  }

  /** Low, middle and high part put together again. */
  lemma PartsOfHandler(h: Word)
    ensures h % 0x1_0000 + 0x1_0000 * ((h / 0x1_0000) % 0x1_0000) + TWO32 * ((h / TWO32) % TWO32) == h
  {
    var q := h / 0x1_0000;
    DivAlgorithm(h, 0x1_0000);
    DivAlgorithm(q, 0x1_0000);
    assert h == (q / 0x1_0000) * TWO32 + ((q % 0x1_0000) * 0x1_0000 + h % 0x1_0000);
    DivModUnique(h, TWO32, q / 0x1_0000, (q % 0x1_0000) * 0x1_0000 + h % 0x1_0000);
    SmallMod(h / TWO32, TWO32);
  }

  lemma Word2(m: Mem, a: int, v: nat)
    ensures Load(Store(m, a, 2, v), a, 2) == v % 0x1_0000 && SameOutside(m, Store(m, a, 2, v), a, a + 2)
  {
    LoadStoreSame(m, a, 2, v);
    Pow256At();
    StoreFrame(m, a, 2, v);
  }

  lemma Word4Mod(m: Mem, a: int, v: nat)
    ensures Load(Store(m, a, 4, v), a, 4) == v % TWO32 && SameOutside(m, Store(m, a, 4, v), a, a + 4)
  {
    LoadStoreSame(m, a, 4, v);
    Pow256At();
    StoreFrame(m, a, 4, v);
  }

  /** Memory after the six writes of a gate. */
  function GateMem(m: Mem, a: int, h: Word): Mem {
    Store(Store(Store(Store(Store(Store(m, a, 2, h), a + 2, 2, SELECTOR), a + 4, 2, TYPE), a + 6, 2, h / 0x1_0000),
                a + 8, 4, h / TWO32), a + 12, 4, 0)
  }

  /** The six writes make the gate and touch only its sixteen bytes. */
  lemma GateWritten(m: Mem, a: int, h: Word)
    ensures GateIs(GateMem(m, a, h), a, h) && SameOutside(m, GateMem(m, a, h), a, a + GATE)
  {
    hide Load, Store;
    var m1 := Store(m, a, 2, h);
    var m2 := Store(m1, a + 2, 2, SELECTOR);
    var m3 := Store(m2, a + 4, 2, TYPE);
    var m4 := Store(m3, a + 6, 2, h / 0x1_0000);
    var m5 := Store(m4, a + 8, 4, h / TWO32);
    var m6 := Store(m5, a + 12, 4, 0);
    Word2(m, a, h);
    Word2(m1, a + 2, SELECTOR);
    Word2(m2, a + 4, TYPE);
    Word2(m3, a + 6, h / 0x1_0000);
    Word4Mod(m4, a + 8, h / TWO32);
    Word4Mod(m5, a + 12, 0);
    LoadSame(m1, m6, a, 2);
    LoadSame(m2, m6, a + 2, 2);
    LoadSame(m3, m6, a + 4, 2);
    LoadSame(m4, m6, a + 6, 2);
    LoadSame(m5, m6, a + 8, 4);
    PartsOfHandler(h);
  }

  // ---- running the writes ----

  lemma Store16Step(m: Machine, disp: int, s: Reg, syms: Syms)
    requires 0 <= m.regs[RDI] + disp < TWO64
    ensures Step(Store16(disp, s), m, syms) == Some(m.(mem := Store(m.mem, m.regs[RDI] + disp, 2, m.regs[s])))
  {
    hide Store;
    WrapSmall(m.regs[RDI] + disp);
  }

  lemma ShrStep(m: Machine, c: nat, syms: Syms) returns (t: Machine)
    requires c < 64
    ensures Step(Ins(ShiftImm(SHR, RAX, c)), m, syms) == Some(t)
    ensures t.mem == m.mem && t.regs == m.regs[RAX := Wrap(m.regs[RAX] / Pow2(c))]
  {
    hide ShiftFlags;
    t := m.(flags := ShiftFlags(SHR, m.regs[RAX], c, m.flags)).Set(RAX, Wrap(m.regs[RAX] / Pow2(c)));
  }

  lemma ShiftsAre(h: Word)
    ensures Wrap(h / Pow2(16)) == h / 0x1_0000 && Wrap(h / Pow2(32)) == h / TWO32
  {
    Pow2At();
    WrapSmall(h / 0x1_0000);
    WrapSmall(h / TWO32);
  }

  lemma LowRuns(m: Machine, a: int, syms: Syms) returns (t: Machine)
    requires m.regs[RDI] == a && a + GATE <= TWO64
    ensures Run(LOW_PART, m, syms) == Some(t)
    ensures t.mem == Store(Store(m.mem, a, 2, m.regs[RSI]), a + 2, 2, SELECTOR) && t.regs == m.regs[RAX := SELECTOR]
  {
    hide Store, Run;
    Store16Step(m, 0, RSI, syms);
    var m1 := m.(mem := Store(m.mem, a, 2, m.regs[RSI]));
    var m2 := m1.Set(RAX, SELECTOR);
    Store16Step(m2, 2, RAX, syms);
    t := m2.(mem := Store(m2.mem, a + 2, 2, SELECTOR));
    assert Step(Ins(MovImm(RAX, SELECTOR)), m1, syms) == Some(m2);
    hide Step;
    Run3(LOW_PART[0], LOW_PART[1], LOW_PART[2], m, m1, m2, t, syms);
  }

  lemma TypeRuns(m: Machine, a: int, syms: Syms) returns (t: Machine)
    requires m.regs[RDI] == a && a + GATE <= TWO64
    ensures Run(TYPE_PART, m, syms) == Some(t)
    ensures t.mem == Store(m.mem, a + 4, 2, TYPE) && t.regs == m.regs[RAX := TYPE]
  {
    hide Store, Run;
    var m1 := m.Set(RAX, TYPE);
    Store16Step(m1, 4, RAX, syms);
    t := m1.(mem := Store(m1.mem, a + 4, 2, TYPE));
    assert Step(Ins(MovImm(RAX, TYPE)), m, syms) == Some(m1);
    hide Step;
    Run2(TYPE_PART[0], TYPE_PART[1], m, syms);
  }

  lemma MidRuns(m: Machine, a: int, syms: Syms) returns (t: Machine)
    requires m.regs[RDI] == a && a + GATE <= TWO64
    ensures Run(MID_PART, m, syms) == Some(t)
    ensures t.mem == Store(m.mem, a + 6, 2, m.regs[RSI] / 0x1_0000) && t.regs == m.regs[RAX := m.regs[RSI] / 0x1_0000]
  {
    hide Store, Run, Pow2;
    var m1 := m.Set(RAX, m.regs[RSI]);
    var m2 := ShrStep(m1, 16, syms);
    ShiftsAre(m.regs[RSI]);
    Store16Step(m2, 6, RAX, syms);
    t := m2.(mem := Store(m2.mem, a + 6, 2, m2.regs[RAX]));
    assert Step(Ins(MovRR(RAX, RSI)), m, syms) == Some(m1);
    hide Step;
    Run3(MID_PART[0], MID_PART[1], MID_PART[2], m, m1, m2, t, syms);
  }

  lemma HighRuns(m: Machine, a: int, syms: Syms) returns (t: Machine)
    requires m.regs[RDI] == a && a + GATE <= TWO64
    ensures Run(HIGH_PART, m, syms) == Some(t)
    ensures t.mem == Store(m.mem, a + 8, 4, m.regs[RSI] / TWO32) && t.regs == m.regs[RAX := m.regs[RSI] / TWO32]
  {
    hide Store, Run, Pow2;
    var m1 := m.Set(RAX, m.regs[RSI]);
    var m2 := ShrStep(m1, 32, syms);
    ShiftsAre(m.regs[RSI]);
    StoreStep32(m2, RDI, 8, RAX, syms);
    t := m2.(mem := Store(m2.mem, a + 8, 4, m2.regs[RAX]));
    assert Step(Ins(MovRR(RAX, RSI)), m, syms) == Some(m1);
    hide Step;
    Run3(HIGH_PART[0], HIGH_PART[1], HIGH_PART[2], m, m1, m2, t, syms);
  }

  lemma ZeroRuns(m: Machine, a: int, syms: Syms) returns (t: Machine)
    requires m.regs[RDI] == a && a + GATE <= TWO64
    ensures Run(ZERO_PART, m, syms) == Some(t)
    ensures t.mem == Store(m.mem, a + 12, 4, 0) && t.regs == m.regs[RAX := 0]
  {
    hide Store, Run;
    var m1 := Cleared(m, syms);
    Run1(Ins(Alu(XOR, RAX, RAX)), m, syms);
    StoreStep32(m1, RDI, 12, RAX, syms);
    t := m1.(mem := Store(m1.mem, a + 12, 4, 0));
    hide Step;
    Run2(ZERO_PART[0], ZERO_PART[1], m, syms);
  }

  /** The writes of a gate, executed: only rax and the gate change. */
  lemma GateRuns(m: Machine, a: int, syms: Syms) returns (t: Machine)
    requires m.regs[RDI] == a && a + GATE <= TWO64
    ensures Run(GateWrites(), m, syms) == Some(t)
    ensures t.regs == m.regs[RAX := 0]
    ensures GateIs(t.mem, a, m.regs[RSI]) && SameOutside(m.mem, t.mem, a, a + GATE)
  {
    hide Store, Run, GateIs;
    var m1 := LowRuns(m, a, syms);
    var m2 := TypeRuns(m1, a, syms);
    var m3 := MidRuns(m2, a, syms);
    var m4 := HighRuns(m3, a, syms);
    t := ZeroRuns(m4, a, syms);
    Then(HIGH_PART, ZERO_PART, m3, m4, syms);
    Then(MID_PART, HIGH_PART + ZERO_PART, m2, m3, syms);
    Then(TYPE_PART, MID_PART + (HIGH_PART + ZERO_PART), m1, m2, syms);
    Then(LOW_PART, TYPE_PART + (MID_PART + (HIGH_PART + ZERO_PART)), m, m1, syms);
    GateWritten(m.mem, a, m.regs[RSI]);
  }

  // ---- the table ----

  /** Gate v points to handler v. */
  ghost predicate IdtAt(m: Mem, base: int, handlers: seq<Word>) {
    |handlers| == VECTORS && forall v | 0 <= v < VECTORS :: GateIs(m, base + GATE * v, handlers[v])
  }

  lemma NeqIs()
    ensures Neq() == 5
  {
    ConditionNames();
  }

  /** One turn of the filling loop. */
  lemma TurnRuns(m: Machine, a: int, syms: Syms) returns (t: Machine)
    requires m.regs[RDI] == a && a + GATE < TWO64 && m.regs[RCX] > 0
    ensures Run(FillBody(), m, syms) == Some(t)
    ensures GateIs(t.mem, a, m.regs[RSI]) && SameOutside(m.mem, t.mem, a, a + GATE)
    ensures t.regs == m.regs[RAX := 0][RDI := a + GATE][RCX := m.regs[RCX] - 1]
    ensures Holds(Neq(), t.flags) == Some(m.regs[RCX] != 1)
  {
    hide Run, GateIs, GateWrites, Holds, CondCode, Store64, Neq;
    var m1 := m.Set(RAX, m.regs[RSI]);
    StoreStep(m1, RDI, 0, RAX, syms);
    var m2 := m1.(mem := Store64(m1.mem, a, m1.regs[RAX]));
    LoadStore64(m1.mem, a, m1.regs[RAX]);
    assert Step(Ins(MovRR(RAX, RSI)), m, syms) == Some(m1);
    Run2(Ins(MovRR(RAX, RSI)), Ins(StoreI(W64, At(RDI, 0), RAX)), m, syms);
    var m3 := GateRuns(m2, a, syms);
    var m4 := AddStep(m3, RDI, GATE, syms);
    var m5 := SubStep(m4, RCX, 1, syms);
    t := TestRuns(m5, RCX, syms);
    NeqIs();
    hide Step;
    var tail := [Ins(AluImm(ADD, RDI, GATE)), Ins(AluImm(SUB, RCX, 1)), Ins(Alu(TEST, RCX, RCX))];
    Run3(tail[0], tail[1], tail[2], m3, m4, m5, t, syms);
    Then(GateWrites(), tail, m2, m3, syms);
    Then([Ins(MovRR(RAX, RSI)), Ins(StoreI(W64, At(RDI, 0), RAX))], GateWrites() + tail, m, m2, syms);
  }

  /** The loop from gate v on fills all the gates that are left. */
  lemma {:induction false} FillRuns(v: nat, m: Machine, base: int, syms: Syms) returns (t: Machine)
    requires v < VECTORS && m.regs[RDI] == base + GATE * v && m.regs[RCX] == VECTORS - v &&
             base + GATE * VECTORS < TWO64
    ensures RunLoop(FillBody(), Neq(), m, syms, VECTORS - v) == Some(t)
    ensures forall w | v <= w < VECTORS :: GateIs(t.mem, base + GATE * w, m.regs[RSI])
    ensures SameOutside(m.mem, t.mem, base + GATE * v, base + GATE * VECTORS)
    ensures forall r: Reg | r !in {RAX, RDI, RCX} :: t.regs[r] == m.regs[r]
    decreases VECTORS - v
  {
    hide Run, GateIs, FillBody, Holds, CondCode, Neq;
    var m1 := TurnRuns(m, base + GATE * v, syms);
    if v == VECTORS - 1 {
      t := m1;
    } else {
      t := FillRuns(v + 1, m1, base, syms);
      GateKept(m1.mem, t.mem, base + GATE * v, m.regs[RSI]);
    }
  }

  /** The loop with what precedes it: every vector points to the default handler. */
  lemma InstallFills(m: Machine, base: Word, handler: Word, syms: Syms) returns (entered: Machine, t: Machine)
    requires IDT in syms && syms[IDT] == base && DEFAULT_HANDLER in syms && syms[DEFAULT_HANDLER] == handler &&
             base as int + GATE * VECTORS < TWO64
    ensures Run(ENTER_FILL, m, syms) == Some(entered)
    ensures RunLoop(FillBody(), Neq(), entered, syms, VECTORS) == Some(t)
    ensures IdtAt(t.mem, base, seq<Word>(VECTORS, i => handler))
    ensures SameOutside(m.mem, t.mem, base, base as int + GATE * VECTORS)
    ensures forall r: Reg | r !in {RAX, RCX, RDI, RSI} :: t.regs[r] == m.regs[r]
  {
    hide Run, GateIs, FillBody, RunLoop, Neq;
    var m1 := m.Set(RSI, handler);
    var m2 := m1.Set(RDI, base);
    entered := m2.Set(RCX, 256);
    Run3(ENTER_FILL[0], ENTER_FILL[1], ENTER_FILL[2], m, m1, m2, entered, syms);
    t := FillRuns(0, entered, base, syms);
  }

  /** The table register gets the limit of 256 gates and the table's address. */
  lemma IdtrFilled(m: Machine, base: Word, idtr: Word, syms: Syms) returns (t: Machine)
    requires IDT in syms && syms[IDT] == base && IDTR in syms && syms[IDTR] == idtr && idtr as int + 10 <= TWO64
    ensures Run(FILL_IDTR, m, syms) == Some(t) && Lidt(t) == (GATE * VECTORS - 1, base)
    ensures forall r: Reg | r !in {RAX, RCX, RDI} :: t.regs[r] == m.regs[r]
    ensures SameOutside(m.mem, t.mem, idtr, idtr as int + 10)
  {
    hide Run, Load, Load64, Store, Store64;
    var m1 := m.Set(RAX, base);
    var m2 := m1.Set(RDI, idtr);
    var m3 := m2.Set(RCX, 4095);
    assert Step(LeaTo(RAX, IDT), m, syms) == Some(m1) && Step(LeaTo(RDI, IDTR), m1, syms) == Some(m2);
    assert Step(Ins(MovImm(RCX, 4095)), m2, syms) == Some(m3);
    Store16Step(m3, 0, RCX, syms);
    var m4 := m3.(mem := Store(m3.mem, idtr, 2, 4095));
    StoreStep(m4, RDI, 2, RAX, syms);
    t := m4.(mem := Store64(m4.mem, idtr as int + 2, base));
    hide Step;
    Run3(LeaTo(RAX, IDT), LeaTo(RDI, IDTR), Ins(MovImm(RCX, 4095)), m, m1, m2, m3, syms);
    Run2(Store16(0, RCX), Ins(StoreI(W64, At(RDI, 2), RAX)), m3, syms);
    Then([LeaTo(RAX, IDT), LeaTo(RDI, IDTR), Ins(MovImm(RCX, 4095))],
      [Store16(0, RCX), Ins(StoreI(W64, At(RDI, 2), RAX))], m, m3, syms);
    Word2(m3.mem, idtr, 4095);
    LoadStore64(m4.mem, idtr as int + 2, base);
    LoadSame(m4.mem, t.mem, idtr, 2);
  }

  /** The core of a patch: one gate, and nothing outside its sixteen bytes. */
  lemma PatchCoreRuns(handler: string, v: nat, m: Machine, base: Word, syms: Syms) returns (t: Machine)
    requires v < VECTORS && IDT in syms && syms[IDT] == base && handler in syms && base as int + GATE * VECTORS < TWO64
    ensures Run(PatchCore(handler, v), m, syms) == Some(t)
    ensures GateIs(t.mem, base as int + GATE * v, syms[handler])
    ensures SameOutside(m.mem, t.mem, base as int + GATE * v, base as int + GATE * v + GATE)
    ensures forall r: Reg | r !in {RAX, RDI, RSI} :: t.regs[r] == m.regs[r]
  {
    hide Run, GateIs, GateWrites;
    var m1 := m.Set(RSI, syms[handler]);
    var m2 := m1.Set(RDI, base);
    var m3 := AddStep(m2, RDI, GATE * v, syms);
    assert Step(LeaTo(RSI, handler), m, syms) == Some(m1) && Step(LeaTo(RDI, IDT), m1, syms) == Some(m2);
    hide Step;
    var enter := [LeaTo(RSI, handler), LeaTo(RDI, IDT), Ins(AluImm(ADD, RDI, GATE * v))];
    Run3(enter[0], enter[1], enter[2], m, m1, m2, m3, syms);
    t := GateRuns(m3, base as int + GATE * v, syms);
    Then(enter, GateWrites(), m, m3, syms);
  }

  /** The table lies apart from the stack words a patch uses. */
  ghost predicate TablePlaced(m: Machine, base: Word, syms: Syms) {
    && IDT in syms && syms[IDT] == base && base as int + GATE * VECTORS < TWO64 && 24 <= m.regs[RSP]
    && (base as int + GATE * VECTORS <= m.regs[RSP] as int - 24 || m.regs[RSP] <= base)
  }

  /** A patch redirects its vector, changes only the sixteen bytes of that gate (and three dead stack
      words), and keeps every register. */
  lemma PatchCorrect(handler: string, v: nat, m: Machine, base: Word, handlers: seq<Word>,
                     syms: Syms) returns (t: Machine)
    requires v < VECTORS && TablePlaced(m, base, syms) && handler in syms && IdtAt(m.mem, base, handlers)
    ensures Run(PatchCode(handler, v), m, syms) == Some(t)
    ensures IdtAt(t.mem, base, handlers[v := syms[handler]]) && t.regs == m.regs
    ensures forall a: int | !(base as int + GATE * v <= a < base as int + GATE * v + GATE) &&
            !(m.regs[RSP] as int - 24 <= a < m.regs[RSP]) ::
              Rd(m.mem, a) == Rd(t.mem, a)
  {
    hide Run, GateIs, PatchCore, Load64, Pushes, Pops, SavedRegs;
    var gate: int := base as int + GATE * v;
    var m1 := PushesRun(PATCH_REGS, m, syms);
    var m2 := PatchCoreRuns(handler, v, m1, base, syms);
    SavedAcross(m1.mem, m2.mem, m, m.regs[RSP], PATCH_REGS);
    t := PopsRun(PATCH_REGS, m2, m, syms);
    Then(PatchCore(handler, v), Pops(PATCH_REGS), m1, m2, syms);
    Then(Pushes(PATCH_REGS), PatchCore(handler, v) + Pops(PATCH_REGS), m, m1, syms);
    var now := handlers[v := syms[handler]];
    forall w | 0 <= w < VECTORS
      ensures GateIs(t.mem, base as int + GATE * w, now[w])
    {
      if w != v {
        GateKept(m.mem, t.mem, base as int + GATE * w, handlers[w]);
      }
    }
  }

  /** Table, table register image and the five saved words lie apart. */
  ghost predicate InstallPlaced(m: Machine, base: Word, idtr: Word, syms: Syms) {
    && IDT in syms && syms[IDT] == base && base as int + GATE * VECTORS < TWO64
    && IDTR in syms && syms[IDTR] == idtr && idtr as int + 10 <= TWO64 && DEFAULT_HANDLER in syms
    && (base as int + GATE * VECTORS <= idtr || idtr as int + 10 <= base)
    && 40 <= m.regs[RSP]
    && (base as int + GATE * VECTORS <= m.regs[RSP] as int - 40 || m.regs[RSP] <= base)
    && (idtr as int + 10 <= m.regs[RSP] as int - 40 || m.regs[RSP] <= idtr)
  }

  /** `idt_install`, all of it: every gate points to the default handler, the table register gets the limit of
      256 gates and the table's address, every register is kept, and nothing else is written but the table, the
      ten bytes `lidt` reads and five dead stack words. */
  lemma InstallCorrect(m: Machine, base: Word, idtr: Word, syms: Syms) returns (t: Machine)
    requires InstallPlaced(m, base, idtr, syms)
    ensures RunInstall(m, syms) == Some((t, (GATE * VECTORS - 1, base)))
    ensures IdtAt(t.mem, base, seq<Word>(VECTORS, i => syms[DEFAULT_HANDLER])) && t.regs == m.regs
    ensures forall a: int | !(base <= a < base as int + GATE * VECTORS) && !(idtr <= a < idtr as int + 10) &&
                            !(m.regs[RSP] as int - 40 <= a < m.regs[RSP]) :: Rd(m.mem, a) == Rd(t.mem, a)
  {
    hide Run, RunLoop, GateIs, FillBody, Load64, Pushes, Pops, SavedRegs, Lidt, Neq;
    var m1 := PushesRun(INSTALL_REGS, m, syms);
    var m2, m3 := InstallFills(m1, base, syms[DEFAULT_HANDLER], syms);
    Then(Pushes(INSTALL_REGS), ENTER_FILL, m, m1, syms);
    var m4 := IdtrFilled(m3, base, idtr, syms);
    SavedAcross(m1.mem, m4.mem, m, m.regs[RSP], INSTALL_REGS);
    t := PopsRun(INSTALL_REGS, m4, m, syms);
    var handlers := seq<Word>(VECTORS, i => syms[DEFAULT_HANDLER]);
    forall w | 0 <= w < VECTORS
      ensures GateIs(t.mem, base as int + GATE * w, handlers[w])
    {
      GateKept(m3.mem, t.mem, base as int + GATE * w, handlers[w]);
    }
  }

  /** The emitted items do this: where they stand in a program, with the loop's label and its jump, execution
      reaches the `lidt` instruction with the machine `RunInstall` has there. */
  lemma InstallReaches(x: Listing, pc: nat, loop: string, m: Machine, base: Word, idtr: Word,
                       syms: Syms) returns (t: Machine)
    requires Unique(x.items) && Stands(x, pc, InstallCode(loop)) && InstallPlaced(m, base, idtr, syms)
    ensures Reaches(x, Spot(pc, m), Spot(pc + |InstallCode(loop)|, t), syms)
    ensures var r := RunInstall(m, syms);
            r.Some? && Run(Pops(INSTALL_REGS), t, syms) == Some(r.value.0) && Lidt(t) == r.value.1
  {
    hide Run, RunLoop, FillBody, Pushes, Pops, Lidt, Stands, Unique, Reaches, InstallPlaced, Neq;
    var done := InstallCorrect(m, base, idtr, syms);
    var head, fill := Pushes(INSTALL_REGS) + ENTER_FILL, LoopCode(loop, FillBody(), Neq());
    var m1 := Run(head, m, syms).value;
    var m2 := RunLoop(FillBody(), Neq(), m1, syms, VECTORS).value;
    t := Run(FILL_IDTR, m2, syms).value;
    assert InstallCode(loop) == head + (fill + FILL_IDTR);
    StandsPart(x, pc, head, fill + FILL_IDTR);
    StandsPart(x, pc + |head|, fill, FILL_IDTR);
    ReachRun(x, pc, head, m, m1, syms);
    LoopReaches(x, pc + |head|, loop, FillBody(), Neq(), m1, m2, VECTORS, syms);
    ReachRun(x, pc + |head| + |fill|, FILL_IDTR, m2, t, syms);
    ReachTrans(x, Spot(pc, m), Spot(pc + |head|, m1), Spot(pc + |head| + |fill|, m2), syms);
    ReachTrans(x, Spot(pc, m), Spot(pc + |head| + |fill|, m2), Spot(pc + |InstallCode(loop)|, t), syms);
  }

  /** What the first `idt_install` of a program emits: the default handler, jumped over, and then the install. */
  function FirstInstall(loop: string, handler: seq<Item>): seq<Item> {
    [JmpTo(AFTER_HANDLER)] + (([Lab(DEFAULT_HANDLER)] + handler + [JmpTo(DEFAULT_HANDLER)]) +
                              ([Lab(AFTER_HANDLER)] + InstallCode(loop)))
  }

  const AFTER_HANDLER := "__idt_after_handler"

  /** The handler's own instructions are not executed: the first install does what a later one does. */
  lemma FirstInstallReaches(x: Listing, pc: nat, loop: string, handler: seq<Item>, m: Machine, base: Word, idtr: Word,
                            syms: Syms) returns (t: Machine)
    requires Unique(x.items) && Stands(x, pc, FirstInstall(loop, handler)) && InstallPlaced(m, base, idtr, syms)
    ensures Reaches(x, Spot(pc, m), Spot(pc + |FirstInstall(loop, handler)|, t), syms)
    ensures var r := RunInstall(m, syms);
            r.Some? && Run(Pops(INSTALL_REGS), t, syms) == Some(r.value.0) && Lidt(t) == r.value.1
  {
    hide Run, InstallCode, RunInstall, Pops, Lidt, Stands, Unique, Reaches, InstallPlaced;
    var body, rest := [Lab(DEFAULT_HANDLER)] + handler + [JmpTo(DEFAULT_HANDLER)],
      [Lab(AFTER_HANDLER)] + InstallCode(loop);
    var k := pc + 1 + |body|;
    StandsPart(x, pc, [JmpTo(AFTER_HANDLER)], body + rest);
    StandsPart(x, pc + 1, body, rest);
    StandsPart(x, k, [Lab(AFTER_HANDLER)], InstallCode(loop));
    StandsItem(x, k, Lab(AFTER_HANDLER));
    ReachJump(x, pc, AFTER_HANDLER, k, m, syms);
    t := InstallReaches(x, k + 1, loop, m, base, idtr, syms);
    ReachTrans(x, Spot(pc, m), Spot(k + 1, m), Spot(k + 1 + |InstallCode(loop)|, t), syms);
  }

  // ---- runs ----

  /** The statements that write the table: `idt_install`, and those that redirect one vector to a label. */
  datatype Event = Install | Redirect(vector: nat, handler: string)

  predicate Proper(e: Event, syms: Syms) {
    e.Redirect? ==> e.vector < VECTORS && e.handler in syms
  }

  function After(e: Event, m: Machine, syms: Syms): Option<Machine> {
    match e
    case Install => (match RunInstall(m, syms) case None => None case Some(r) => Some(r.0))
    case Redirect(v, h) => Run(PatchCode(h, v), m, syms)
  }

  function RunEvents(es: seq<Event>, m: Machine, syms: Syms): Option<Machine>
    decreases |es|
  {
    if es == [] then Some(m)
    else
      var n := |es| - 1;
      match RunEvents(es[..n], m, syms) case None => None case Some(t) => After(es[n], t, syms)
  }

  /** The abstract map: an install resets it to the default, a redirection changes one vector. */
  function MapAfter(handlers: seq<Word>, es: seq<Event>, syms: Syms): (r: seq<Word>)
    requires |handlers| == VECTORS && DEFAULT_HANDLER in syms && forall i | 0 <= i < |es| :: Proper(es[i], syms)
    ensures |r| == VECTORS
    decreases |es|
  {
    if es == [] then handlers
    else
      var n := |es| - 1;
      assert Proper(es[n], syms);
      match es[n]
      case Install => seq<Word>(VECTORS, i => syms[DEFAULT_HANDLER])
      case Redirect(v, h) => MapAfter(handlers, es[..n], syms)[v := syms[h]]
  }

  /** After any sequence of installs and redirections that starts with an `idt_install`, or from a table that is
      already there, every gate decodes to the handler the map gives its vector, and every register is kept. */
  lemma {:induction false} EventsAreMap(es: seq<Event>, m: Machine, base: Word, idtr: Word, handlers: seq<Word>,
                                        syms: Syms) returns (t: Machine)
    requires InstallPlaced(m, base, idtr, syms) && |handlers| == VECTORS && forall i | 0 <= i < |es| ::
             Proper(es[i], syms)
    requires (es != [] && es[0].Install?) || IdtAt(m.mem, base, handlers)
    ensures RunEvents(es, m, syms) == Some(t) && t.regs == m.regs
    ensures IdtAt(t.mem, base, MapAfter(handlers, es, syms))
    decreases |es|
  {
    hide Run, IdtAt, PatchCode, RunInstall;
    if es == [] {
      t := m;
    } else {
      var n := |es| - 1;
      if n == 0 && es[0].Install? {
        assert es[..0] == [];
        t := InstallCorrect(m, base, idtr, syms);
      } else {
        var t1 := EventsAreMap(es[..n], m, base, idtr, handlers, syms);
        var e := es[n];
        assert Proper(e, syms);
        if e.Install? {
          t := InstallCorrect(t1, base, idtr, syms);
        } else {
          t := PatchCorrect(e.handler, e.vector, t1, base, MapAfter(handlers, es[..n], syms), syms);
        }
      }
    }
  }

  /** The map gives each vector the last handler installed for it since the last `idt_install`, or the default. */
  lemma {:induction false} LastInstallWins(handlers: seq<Word>, es: seq<Event>, syms: Syms, v: nat, k: nat)
    requires |handlers| == VECTORS && DEFAULT_HANDLER in syms && v < VECTORS && forall i | 0 <= i < |es| ::
             Proper(es[i], syms)
    requires k < |es| && (es[k].Install? || es[k].vector == v)
    requires forall i | k < i < |es| :: es[i].Redirect? && es[i].vector != v
    ensures MapAfter(handlers, es, syms)[v] == if es[k].Install? then syms[DEFAULT_HANDLER] else syms[es[k].handler]
    decreases |es|
  {
    if k < |es| - 1 {
      LastInstallWins(handlers, es[..|es| - 1], syms, v, k);
    }
  }
}
