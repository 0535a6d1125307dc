/** `dma_ring_init`, and runs of ring statements on one machine against the bounded FIFO. */
module DmaRingCode {
  import opened Wrappers
  import opened Words
  import opened Memory
  import opened Regs
  import opened Isa
  import opened Assembly
  import opened Ast
  import opened Codegen
  import opened Semantics
  import opened ExprProofs
  import opened StmtProofs
  import opened MachineSteps
  import opened DmaRing
  import opened DmaRingMemory
  import opened DmaRingPush
  import opened DmaRingPop

  // ---- init ----

  const INIT_REGS: seq<Reg> := [RAX, RDI]
  const INIT_ENTER: seq<Item> := [LeaTo(RDI, RING), Ins(Alu(XOR, RAX, RAX))]

  function InitStores(n: nat): seq<Item> {
    [Ins(StoreI(W64, At(RDI, 0), RAX)), Ins(StoreI(W64, At(RDI, 4), RAX)), Ins(MovImm(RAX, Wrap(n - 1))),
     Ins(StoreI(W32, At(RDI, 8), RAX))]
  }

  function InitCode(n: nat): seq<Item> {
    Pushes(INIT_REGS) + (INIT_ENTER + (InitStores(n) + Pops(INIT_REGS)))
  }

  /** The slot contents found in memory. */
  function CellsAt(m: Mem, base: int, n: nat): seq<Cell> {
    seq(n, i requires 0 <= i < n => (Load64(m, SlotAt(base, i)), Load64(m, SlotAt(base, i) + 8)))
  }

  /** The two overlapping zero stores and the mask leave an empty ring around whatever the slots held. */
  lemma HeaderStored(m: Mem, base: int, n: nat)
    requires 2 <= n <= TWO32
    ensures var m3 := Store(Store64(Store64(m, base, 0), base + 4, 0), base + 8, 4, n - 1);
            RingAt(m3, base, Ring(0, 0, CellsAt(m, base, n))) && SameOutside(m, m3, base, base + 12)
  {
    hide Load, Load64, Store, Store64;
    var m1 := Store64(m, base, 0);
    var m2 := Store64(m1, base + 4, 0);
    var m3 := Store(m2, base + 8, 4, n - 1);
    LoadStore64(m, base, 0);
    LoadStore64(m1, base + 4, 0);
    Word4(m2, base + 8, n - 1);
    ZeroWords(m, m1, m2, base);
    LoadSame(m2, m3, base, 4);
    LoadSame(m2, m3, base + 4, 4);
    forall i | 0 <= i < n
      ensures CellAt(m3, base, i, CellsAt(m, base, n)[i])
    {
      Load64Same(m, m3, SlotAt(base, i));
      Load64Same(m, m3, SlotAt(base, i) + 8);
    }
  }

  lemma ZeroWords(m: Mem, m1: Mem, m2: Mem, base: int)
    requires m1 == Store64(m, base, 0) && m2 == Store64(m1, base + 4, 0)
    ensures Load(m2, base, 4) == 0 && Load(m2, base + 4, 4) == 0
  {
    ZeroStored(m, base);
    ZeroStored(m1, base + 4);
    LoadStore64(m1, base + 4, 0);
    AllZeroLoad(m2, base, 4);
    AllZeroLoad(m2, base + 4, 4);
  }

  ghost predicate ZeroIn(m: Mem, lo: int, hi: int) {
    forall x | lo <= x < hi :: Rd(m, x) == 0
  }

  lemma ZeroStored(m: Mem, a: int)
    ensures ZeroIn(Store64(m, a, 0), a, a + 8)
  {
    ZeroBytes(8);
    forall x | a <= x < a + 8
      ensures Rd(Store64(m, a, 0), x) == 0
    {
      RdWrite(m, a, LE(0, 8), x);
      assert LE(0, 8)[x - a] == 0;
    }
  }

  lemma {:induction false} ZeroBytes(n: nat)
    ensures forall i | 0 <= i < n :: LE(0, n)[i] == 0
  {
    if n > 0 {
      ZeroBytes(n - 1);
    }
  }

  lemma {:induction false} AllZeroLoad(m: Mem, a: int, n: nat)
    requires ZeroIn(m, a, a + n)
    ensures Load(m, a, n) == 0
    decreases n
  {
    if n > 0 {
      AllZeroLoad(m, a + 1, n - 1);
      assert ReadBytes(m, a, n)[1..] == ReadBytes(m, a + 1, n - 1);
      assert ReadBytes(m, a, n)[0] == Rd(m, a);
    }
  }

  /** The ring's address in rdi, zero in rax. */
  lemma InitEntered(m: Machine, base: int, syms: Syms) returns (t: Machine)
    requires RING in syms && syms[RING] == base
    ensures Run(INIT_ENTER, m, syms) == Some(t) && Same(t, m.regs[RDI := base][RAX := 0], m.mem)
  {
    hide Run, AluFlags;
    var m1 := m.Set(RDI, base);
    t := Cleared(m1, syms);
    Run1(Ins(Alu(XOR, RAX, RAX)), m1, syms);
    assert Step(LeaTo(RDI, RING), m, syms) == Some(m1);
    hide Step;
    Run2(INIT_ENTER[0], INIT_ENTER[1], m, syms);
  }

  /** The stores of the header. */
  lemma HeaderRuns(m: Machine, base: int, n: nat, syms: Syms) returns (t: Machine)
    requires m.regs[RDI] == base && m.regs[RAX] == 0 && base + 16 <= TWO64 && 2 <= n <= TWO32
    ensures Run(InitStores(n), m, syms) == Some(t)
    ensures t.mem == Store(Store64(Store64(m.mem, base, 0), base + 4, 0), base + 8, 4, n - 1) &&
            t.regs == m.regs[RAX := n - 1]
  {
    hide Run, Store, Store64;
    StoreStep(m, RDI, 0, RAX, syms);
    var m5 := m.(mem := Store64(m.mem, base, 0));
    StoreStep(m5, RDI, 4, RAX, syms);
    var m6 := m5.(mem := Store64(m5.mem, base + 4, 0));
    WrapSmall(n - 1);
    var m7 := m6.Set(RAX, n - 1);
    assert Step(Ins(MovImm(RAX, Wrap(n - 1))), m6, syms) == Some(m7);
    StoreStep32(m7, RDI, 8, RAX, syms);
    t := m7.(mem := Store(m7.mem, base + 8, 4, n - 1));
    hide Step;
    var l := InitStores(n);
    Run4(l[0], l[1], l[2], l[3], m, m5, m6, m7, t, syms);
  }

  /** `dma_ring_init`: an empty ring with the given number of slots, all registers kept. */
  lemma InitCorrect(n: nat, m: Machine, base: int, syms: Syms) returns (t: Machine)
    requires RingPlaced(m, base, n, 0, syms) && n >= 2
    ensures Run(InitCode(n), m, syms) == Some(t)
    ensures RingAt(t.mem, base, Ring(0, 0, CellsAt(m.mem, base, n)))
    ensures t.regs == m.regs && OnlyRing(m, t, base, n, 0)
  {
    hide Run, Load64, Store, Store64, RingAt, CellsAt, SavedRegs, Pushes, Pops;
    var m1 := PushesRun(INIT_REGS, m, syms);
    var m2 := InitEntered(m1, base, syms);
    var m3 := HeaderRuns(m2, base, n, syms);
    HeaderStored(m2.mem, base, n);
    CellsSame(m.mem, m2.mem, base, n);
    SavedAcross(m1.mem, m3.mem, m, m.regs[RSP], INIT_REGS);
    t := PopsRun(INIT_REGS, m3, m, syms);
    Then(InitStores(n), Pops(INIT_REGS), m2, m3, syms);
    Then(INIT_ENTER, InitStores(n) + Pops(INIT_REGS), m1, m2, syms);
    Then(Pushes(INIT_REGS), INIT_ENTER + (InitStores(n) + Pops(INIT_REGS)), m, m1, syms);
  }

  lemma CellsSame(m: Mem, m': Mem, base: int, n: nat)
    requires SameIn(m, m', base, base + RingSize(n))
    ensures CellsAt(m, base, n) == CellsAt(m', base, n)
  {
    hide Load64;
    forall i | 0 <= i < n
      ensures CellsAt(m, base, n)[i] == CellsAt(m', base, n)[i]
    {
      Load64Same(m, m', SlotAt(base, i));
      Load64Same(m, m', SlotAt(base, i) + 8);
    }
  }

  // ---- runs on one machine ----

  /** A statement of the run: a push, a pop, or other code with its resulting machine. */
  datatype RingStmt = Push(addr: Expr, len: Expr) | Pop(da: Reg, dl: Reg) | Other(after: Machine)

  function After(s: RingStmt, c: Ctx, m: Machine, syms: Syms): Option<Machine> {
    match s
    case Push(a, l) => if Emitted(a, l, c) then RunPush(a, l, c, m, syms) else None
    case Pop(da, dl) => RunPop(da, dl, m, syms)
    case Other(t) => Some(t)
  }

  /** The queue operation a statement stands for where it is executed. */
  function Meant(s: RingStmt, c: Ctx, m: Machine, syms: Syms): seq<Op> {
    match s
    case Push(a, l) => [Enqueue((Wrap(Value(a, c, m, syms)), Wrap(Value(l, c, m, syms))))]
    case Pop(_, _) => [Dequeue]
    case Other(_) => []
  }

  /** What the program sees of it: the status in rax, and the pair of a successful pop in its destinations. */
  function Reported(s: RingStmt, t: Machine): seq<Report> {
    match s
    case Push(_, _) => [Report(t.regs[RAX], None)]
    case Pop(da, dl) => [Report(t.regs[RAX], if t.regs[RAX] == 0 then Some((t.regs[da], t.regs[dl])) else None)]
    case Other(_) => []
  }

  /** Statements the ring is made for: steady simple operands, free different destinations; other code leaves the
      ring alone, and the stack apart from it. */
  ghost predicate Proper(s: RingStmt, c: Ctx, m: Machine, base: int, n: nat, syms: Syms) {
    match s
    case Push(a, l) =>
      && Emitted(a, l, c) && Readable(a, c, m, m.regs[RSP], syms) && Readable(l, c, m, m.regs[RSP], syms)
      && SteadyPair(a, l, c, m, base, n) && !Compound(a) && !Compound(l)
    case Pop(da, dl) => da in USER && dl in USER && FreeDest(da) && FreeDest(dl) && da != dl
    case Other(t) => SameIn(m.mem, t.mem, base, base + RingSize(n)) && RingPlaced(t, base, n, 0, syms)
  }

  datatype RingRun = RingRun(reports: seq<Report>, ops: seq<Op>, final: Machine)

  /** A run: its reports, the operations they belong to, and the machine at the end. */
  function RunStmts(ss: seq<RingStmt>, c: Ctx, m: Machine, syms: Syms): Option<RingRun>
    decreases |ss|
  {
    if ss == [] then Some(RingRun([], [], m))
    else
      match After(ss[0], c, m, syms)
      case None => None
      case Some(t) =>
        match RunStmts(ss[1..], c, t, syms)
        case None => None
        case Some(o) => Some(RingRun(Reported(ss[0], t) + o.reports, Meant(ss[0], c, m, syms) + o.ops, o.final))
  }

  ghost predicate AllProper(ss: seq<RingStmt>, c: Ctx, m: Machine, base: int, n: nat, syms: Syms)
    decreases |ss|
  {
    ss == [] ||
    (Proper(ss[0], c, m, base, n, syms) &&
     (After(ss[0], c, m, syms).Some? ==> AllProper(ss[1..], c, After(ss[0], c, m, syms).value, base, n, syms)))
  }

  /** One statement on the machine is one operation on the ring, or none, and reports what it reports. */
  lemma StmtRefines(s: RingStmt, c: Ctx, m: Machine, base: int, r: Ring, syms: Syms) returns (t: Machine, r': Ring)
    requires RingPlaced(m, base, |r.cells|, 0, syms) && RingAt(m.mem, base, r) && RingOk(r) && WellFormed(c) &&
             Proper(s, c, m, base, |r.cells|, syms)
    ensures After(s, c, m, syms) == Some(t) && RingPlaced(t, base, |r.cells|, 0, syms)
    ensures RingAt(t.mem, base, r') && RingOk(r') && |r'.cells| == |r.cells|
    ensures var ops := Meant(s, c, m, syms);
            if ops == [] then r' == r && Reported(s, t) == []
            else |ops| == 1 && DoRing(r, ops[0]) == (Reported(s, t)[0], r') && |Reported(s, t)| == 1
  {
    hide RunPush, RunPop, RingAt, Readable, SteadyPair, Value, WellFormed;
    match s
    case Push(a, l) =>
      t := PushCorrect(a, l, c, m, base, r, syms);
      r' := PushTo(r, (Wrap(Value(a, c, m, syms)), Wrap(Value(l, c, m, syms)))).1;
    case Pop(da, dl) =>
      t := PopCorrect(da, dl, m, base, r, syms);
      r' := PopFrom(r).2;
    case Other(after) =>
      t, r' := after, r;
      RingKept(m.mem, after.mem, base, r);
  }

  /** The reports and the queue of a statement and of what follows it. */
  lemma Followed(ops: seq<Op>, reports: seq<Report>, r: Ring, r1: Ring, r2: Ring, o1: RingRun)
    requires RingOk(r) && RingOk(r1) && RingOk(r2) && |r1.cells| == |r.cells|
    requires
      if ops == [] then r1 == r && reports == []
      else |ops| == 1 && |reports| == 1 && DoRing(r, ops[0]) == (reports[0], r1)
    requires (o1.reports, Queue(r2)) == RunFifo(Queue(r1), |r.cells| - 1, o1.ops)
    ensures (reports + o1.reports, Queue(r2)) == RunFifo(Queue(r), |r.cells| - 1, ops + o1.ops)
  {
    hide RunFifo, DoFifo, DoRing, Queue;
    if ops == [] {
      assert [] + o1.ops == o1.ops && [] + o1.reports == o1.reports;
    } else {
      StepRefines(r, ops[0]);
      FifoCons(Queue(r), |r.cells| - 1, ops[0], o1.ops);
      assert ops == [ops[0]] && reports == [reports[0]];
    }
  }

  lemma NoStmts(c: Ctx, m: Machine, r: Ring, syms: Syms)
    requires RingOk(r)
    ensures RunStmts([], c, m, syms) == Some(RingRun([], [], m)) &&
            RunFifo(Queue(r), |r.cells| - 1, []) == ([], Queue(r))
  {
    hide Queue;
  }

  /** Every run of pushes, pops and other code from a ring in memory reports what the FIFO of capacity slots - 1
      reports, and leaves a ring that queues what the FIFO queues. */
  lemma {:induction false} StmtsAreFifo(ss: seq<RingStmt>, c: Ctx, m: Machine, base: int, r: Ring,
                                        syms: Syms) returns (o: RingRun, r': Ring)
    requires RingPlaced(m, base, |r.cells|, 0, syms) && RingAt(m.mem, base, r) && RingOk(r) && WellFormed(c)
    requires AllProper(ss, c, m, base, |r.cells|, syms)
    ensures RunStmts(ss, c, m, syms) == Some(o)
    ensures RingAt(o.final.mem, base, r') && RingOk(r') && |r'.cells| == |r.cells|
    ensures (o.reports, Queue(r')) == RunFifo(Queue(r), |r.cells| - 1, o.ops)
    decreases |ss|
  {
    hide After, RingAt, RingPlaced, Queue, Proper, WellFormed, DoRing, RunFifo, Meant, Reported;
    if ss == [] {
      o, r' := RingRun([], [], m), r;
      NoStmts(c, m, r, syms);
    } else {
      var t, r1 := StmtRefines(ss[0], c, m, base, r, syms);
      var o1, r2 := StmtsAreFifo(ss[1..], c, t, base, r1, syms);
      r' := r2;
      Followed(Meant(ss[0], c, m, syms), Reported(ss[0], t), r, r1, r2, o1);
      o := RingRun(Reported(ss[0], t) + o1.reports, Meant(ss[0], c, m, syms) + o1.ops, o1.final);
    }
  }

  lemma FifoCons(q: seq<Cell>, capacity: nat, op: Op, rest: seq<Op>)
    ensures var (a, q1) := DoFifo(q, capacity, op);
            var (b, q2) := RunFifo(q1, capacity, rest);
            RunFifo(q, capacity, [op] + rest) == ([a] + b, q2)
  {
    hide DoFifo;
    assert ([op] + rest)[1..] == rest;
  }

  /** From the source statement to the queue: a ring initialised for `request` slots has room for one pair less than
      the power of two the parser makes of it, and after the init every run of ring statements and other code
      reports, in order, what the empty FIFO of that capacity reports. */
  lemma InitialisedRingIsFifo(request: int, ss: seq<RingStmt>, c: Ctx, m: Machine, base: int,
                              syms: Syms) returns (t: Machine, o: RingRun)
    requires RingPlaced(m, base, RoundSlots(request), 0, syms) && WellFormed(c)
    requires Run(InitCode(RoundSlots(request)), m, syms).Some? ==>
               AllProper(ss, c, Run(InitCode(RoundSlots(request)), m, syms).value, base, RoundSlots(request), syms)
    ensures RoundSlots(request) >= 2 && RoundSlots(request) >= request
    ensures Run(InitCode(RoundSlots(request)), m, syms) == Some(t) && t.regs == m.regs
    ensures RunStmts(ss, c, t, syms) == Some(o)
    ensures o.reports == RunFifo([], RoundSlots(request) - 1, o.ops).0
  {
    hide Run, RingAt, RunStmts, AllProper, CellsAt, InitCode, RoundSlots, Queue, WellFormed, RunFifo;
    var n := RoundSlots(request);
    var k := SlotsArePowerOfTwo(request);
    AtLeastTwo(k);
    t := InitCorrect(n, m, base, syms);
    var r := Ring(0, 0, CellsAt(m.mem, base, n));
    assert |r.cells| == n by { CellCount(m.mem, base, n); }
    FreshRing(r.cells);
    var o', r' := StmtsAreFifo(ss, c, t, base, r, syms);
    o := o';
  }

  lemma AtLeastTwo(k: nat)
    requires k >= 1
    ensures Pow2(k) >= 2
  {
  }

  lemma CellCount(m: Mem, base: int, n: nat)
    ensures |CellsAt(m, base, n)| == n
  {
  }
}
