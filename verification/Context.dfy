/** Saving and loading register files in 128-byte buffers, and cooperative switching between them. */
module Context {
  import opened Wrappers
  import opened Words
  import opened Memory
  import opened Regs
  import opened Isa
  import opened Assembly
  import opened Semantics
  import opened StmtProofs
  import opened MachineSteps

  /** Slot order of a buffer; the sixteenth slot holds rsp. */
  const ORDER: seq<Reg> := [RAX, RBX, RCX, RDX, RSI, RDI, R8, R9, R10, R11, R12, R13, R14, R15, RBP]

  function OrderAt(i: nat): Reg
    requires i < 15
  {
    ORDER[i]
  }

  const RSP_SLOT: nat := 120
  const BUFFER: nat := 128

  /** Stores of slots i to 14. */
  function Stores(i: nat): seq<Item>
    requires i <= 15
    decreases 15 - i
  {
    if i == 15 then [] else [Ins(StoreI(W64, At(R15, 8 * i), OrderAt(i)))] + Stores(i + 1)
  }

  /** Loads of slots i to 13; rbp comes last, through the r15 just loaded. */
  function Loads(i: nat): seq<Item>
    requires i <= 14
    decreases 14 - i
  {
    if i == 14 then [Ins(LoadI(W64, RBP, At(R15, 112)))]
    else [Ins(LoadI(W64, OrderAt(i), At(R15, 8 * i)))] + Loads(i + 1)
  }

  /** `ctx_save`. The reload of r11 before the rsp slot is in the source, too. */
  function SaveCode(base: Reg): seq<Item> {
    [Ins(Push(base)), Ins(MovRR(R15, base))] +
    (Stores(0) + [Ins(LoadI(W64, R11, At(RSP, 0))), Ins(StoreI(W64, At(R15, RSP_SLOT), RSP)), Ins(Pop(base))])
  }

  /** `ctx_load`. */
  function LoadCode(base: Reg): seq<Item> {
    [Ins(MovRR(R15, base))] + Loads(0)
  }

  /** `coop_switch`. */
  function SwitchCode(save: Reg, load: Reg): seq<Item> {
    SaveCode(save) + LoadCode(load)
  }

  // ---- buffers ----

  /** Word i of a buffer. */
  function WordOf(m: Mem, b: int, i: nat): Word {
    Load64(m, b + 8 * i)
  }

  /** The buffer holds the register file: rax to r14 and rbp, and its own address for r15. */
  ghost predicate Stored(m: Mem, b: int, regs: RegFile) {
    && (forall i | 0 <= i < 13 :: WordOf(m, b, i) == regs[OrderAt(i)])
    && WordOf(m, b, 13) == b && WordOf(m, b, 14) == regs[RBP]
  }

  lemma OrderEnds()
    ensures OrderAt(13) == R15 && OrderAt(14) == RBP
  {
  }

  lemma OrderDistinct(i: nat, j: nat)
    requires i < 15 && j < 15
    ensures OrderAt(i) == OrderAt(j) <==> i == j
    ensures OrderAt(i) != RSP && (OrderAt(i) == R15 <==> i == 13) && (OrderAt(i) == R11 <==> i == 9)
  {
  }

  lemma {:induction false} StoresRun(i: nat, m: Machine, b: int, syms: Syms) returns (t: Machine)
    requires i <= 15 && m.regs[R15] == b && 0 <= b && b + BUFFER <= TWO64
    ensures Run(Stores(i), m, syms) == Some(t)
    ensures t.regs == m.regs && SameOutside(m.mem, t.mem, b + 8 * i, b + 120)
    ensures forall j | i <= j < 15 :: WordOf(t.mem, b, j) == m.regs[OrderAt(j)]
    decreases 15 - i
  {
    hide Load64, Store64, Run, Step, OrderAt;
    if i == 15 {
      t := m;
      NoItems(m, syms);
    } else {
      var m1 := StoreOne(i, m, b, syms);
      t := StoresRun(i + 1, m1, b, syms);
      assert Stores(i) == [Ins(StoreI(W64, At(R15, 8 * i), OrderAt(i)))] + Stores(i + 1);
      hide *;
      RunCons(Ins(StoreI(W64, At(R15, 8 * i), OrderAt(i))), Stores(i + 1), m, syms);
      StoredKept(i, m, m1, t, b);
    }
  }

  /** One store into its slot. */
  lemma StoreOne(i: nat, m: Machine, b: int, syms: Syms) returns (t: Machine)
    requires i < 15 && m.regs[R15] == b && 0 <= b && b + BUFFER <= TWO64
    ensures Step(Ins(StoreI(W64, At(R15, 8 * i), OrderAt(i))), m, syms) == Some(t)
    ensures t.regs == m.regs && SameOutside(m.mem, t.mem, b + 8 * i, b + 8 * i + 8)
    ensures WordOf(t.mem, b, i) == m.regs[OrderAt(i)]
  {
    hide Load64, Store64, Step, OrderAt;
    t := m.(mem := Store64(m.mem, b + 8 * i, m.regs[OrderAt(i)]));
    StoreStep(m, R15, 8 * i, OrderAt(i), syms);
    LoadStore64(m.mem, b + 8 * i, m.regs[OrderAt(i)]);
  }

  /** The word stored first survives the stores that follow. */
  lemma StoredKept(i: nat, m: Machine, m1: Machine, t: Machine, b: int)
    requires i < 15 && SameOutside(m.mem, m1.mem, b + 8 * i, b + 8 * i + 8) &&
             SameOutside(m1.mem, t.mem, b + 8 * i + 8, b + 120)
    requires WordOf(m1.mem, b, i) == m.regs[OrderAt(i)]
    requires forall j | i + 1 <= j < 15 :: WordOf(t.mem, b, j) == m.regs[OrderAt(j)]
    ensures SameOutside(m.mem, t.mem, b + 8 * i, b + 120)
    ensures forall j | i <= j < 15 :: WordOf(t.mem, b, j) == m.regs[OrderAt(j)]
  {
    hide Load64, OrderAt;
    Load64Same(m1.mem, t.mem, b + 8 * i);
  }

  lemma NoItems(m: Machine, syms: Syms)
    ensures Run([], m, syms) == Some(m)
  {
  }

  /** The loads read every slot through r15 before they overwrite it, and rbp through the restored r15. */
  lemma {:induction false} LoadsRun(i: nat, m: Machine, b: int, syms: Syms) returns (t: Machine)
    requires i <= 14 && 0 <= b && b + BUFFER <= TWO64 && m.regs[R15] == b
    requires WordOf(m.mem, b, 13) == b
    ensures Run(Loads(i), m, syms) == Some(t)
    ensures t.mem == m.mem && t.flags == m.flags && t.regs[RSP] == m.regs[RSP] && t.regs[R15] == b
    ensures forall j | i <= j < 15 :: t.regs[OrderAt(j)] == WordOf(m.mem, b, j)
    ensures forall j | 0 <= j < i && j < 13 :: t.regs[OrderAt(j)] == m.regs[OrderAt(j)]
    decreases 14 - i
  {
    hide Load64, Run, Exec, OrderAt;
    if i == 14 {
      OrderEnds();
      Read64(m, RBP, R15, 112, syms);
      Run1(Ins(LoadI(W64, RBP, At(R15, 112))), m, syms);
      t := m.Set(RBP, WordOf(m.mem, b, 14));
      assert t.regs[OrderAt(14)] == WordOf(m.mem, b, 14);
      forall j | 0 <= j < 13
        ensures t.regs[OrderAt(j)] == m.regs[OrderAt(j)]
      {
        OrderDistinct(14, j);
      }
    } else {
      var m1 := m.Set(OrderAt(i), WordOf(m.mem, b, i));
      Read64(m, OrderAt(i), R15, 8 * i, syms);
      OrderDistinct(i, 13);
      OrderEnds();
      t := LoadsRun(i + 1, m1, b, syms);
      RunCons(Ins(LoadI(W64, OrderAt(i), At(R15, 8 * i))), Loads(i + 1), m, syms);
      LoadedKept(i, m1, t);
      forall j | 0 <= j < i && j < 13
        ensures t.regs[OrderAt(j)] == m.regs[OrderAt(j)]
      {
        OrderDistinct(i, j);
      }
    }
  }

  lemma LoadedKept(i: nat, m1: Machine, t: Machine)
    requires i < 14 && forall j | 0 <= j < i + 1 && j < 13 :: t.regs[OrderAt(j)] == m1.regs[OrderAt(j)]
    ensures i < 13 ==> t.regs[OrderAt(i)] == m1.regs[OrderAt(i)]
  {
  }

  /** Room for the one pushed word, apart from the buffer. */
  ghost predicate Room(m: Machine, b: int) {
    && 0 <= b && b + BUFFER <= TWO64 && 8 <= m.regs[RSP]
    && (b + BUFFER <= m.regs[RSP] as int - 8 || m.regs[RSP] <= b)
  }

  /** `ctx_save` stores the register file; r11 and r15 end up holding the buffer's address. */
  lemma SaveCorrect(base: Reg, m: Machine, syms: Syms) returns (t: Machine)
    requires base in USER && Room(m, m.regs[base])
    ensures Run(SaveCode(base), m, syms) == Some(t)
    ensures Stored(t.mem, m.regs[base], m.regs)
    ensures t.regs == m.regs[R15 := m.regs[base]][R11 := m.regs[base]]
    ensures forall a: int | !(m.regs[base] <= a < m.regs[base] as int + BUFFER) &&
            !(m.regs[RSP] as int - 8 <= a < m.regs[RSP]) ::
              Rd(m.mem, a) == Rd(t.mem, a)
  {
    hide Load64, Store64, Run, PushValue, Stores, WordOf;
    var b: Word, sp: int := m.regs[base], m.regs[RSP];
    var m1 := PushValue(m, b);
    PushWord(m, base, syms);
    var m2 := m1.Set(R15, b);
    Run2(Ins(Push(base)), Ins(MovRR(R15, base)), m, syms);
    var m3 := StoresRun(0, m2, b, syms);
    Load64Same(m2.mem, m3.mem, sp - 8);
    t := SaveTail(base, m3, m, b, syms);
    var tail := [Ins(LoadI(W64, R11, At(RSP, 0))), Ins(StoreI(W64, At(R15, RSP_SLOT), RSP)), Ins(Pop(base))];
    Then(Stores(0), tail, m2, m3, syms);
    Then([Ins(Push(base)), Ins(MovRR(R15, base))], Stores(0) + tail, m, m2, syms);
    BufferHolds(m2, m3, t, b, m.regs);
  }

  lemma SaveTail(base: Reg, m3: Machine, m: Machine, b: Word, syms: Syms) returns (t: Machine)
    requires base in USER && Room(m, b) && m.regs[base] == b
    requires m3.regs == m.regs[RSP := m.regs[RSP] as int - 8][R15 := b]
    requires Load64(m3.mem, m.regs[RSP] as int - 8) == b
    ensures Run([Ins(LoadI(W64, R11, At(RSP, 0))), Ins(StoreI(W64, At(R15, RSP_SLOT), RSP)), Ins(Pop(base))], m3,
            syms) == Some(t)
    ensures t.regs == m.regs[R15 := b][R11 := b]
    ensures SameOutside(m3.mem, t.mem, b as int + RSP_SLOT, b as int + BUFFER)
  {
    hide Load64, Store64, Run, Step;
    var sp: int := m.regs[RSP];
    Read64(m3, R11, RSP, 0, syms);
    var m4 := m3.Set(R11, b);
    StoreStep(m4, R15, RSP_SLOT, RSP, syms);
    var m5 := m4.(mem := Store64(m4.mem, b as int + RSP_SLOT, sp - 8));
    LoadStore64(m4.mem, b as int + RSP_SLOT, sp - 8);
    Load64Same(m4.mem, m5.mem, sp - 8);
    PopWord(m5, base, syms);
    t := m5.(regs := m5.regs[RSP := sp][base := b]);
    assert t.regs == m.regs[R15 := b][R11 := b];
    Run3(Ins(LoadI(W64, R11, At(RSP, 0))), Ins(StoreI(W64, At(R15, RSP_SLOT), RSP)), Ins(Pop(base)), m3, m4, m5, t,
      syms);
  }

  /** The stored words survive the store of rsp and are the registers of the entry. */
  lemma BufferHolds(m2: Machine, m3: Machine, t: Machine, b: Word, regs: RegFile)
    requires forall j | 0 <= j < 15 :: WordOf(m3.mem, b, j) == m2.regs[OrderAt(j)]
    requires SameOutside(m3.mem, t.mem, b as int + RSP_SLOT, b as int + BUFFER)
    requires forall r: Reg | r != RSP && r != R15 :: m2.regs[r] == regs[r]
    requires m2.regs[R15] == b
    ensures Stored(t.mem, b, regs)
  {
    hide Load64;
    forall j | 0 <= j < 15
      ensures WordOf(t.mem, b, j) == m2.regs[OrderAt(j)]
    {
      Load64Same(m3.mem, t.mem, b + 8 * j);
    }
    forall i | 0 <= i < 13
      ensures WordOf(t.mem, b, i) == regs[OrderAt(i)]
    {
      OrderDistinct(i, 13);
    }
    assert OrderAt(13) == R15 && OrderAt(14) == RBP;
  }

  /** Registers a buffer restores. */
  ghost predicate Restored(t: Machine, b: Word, regs: RegFile) {
    && (forall r: Reg | r != R15 && r != RSP :: t.regs[r] == regs[r])
    && t.regs[R15] == b
  }

  /** `ctx_load` restores rax to r14 and rbp from the buffer, and leaves rsp and memory alone. */
  lemma LoadCorrect(base: Reg, m: Machine, regs: RegFile, syms: Syms) returns (t: Machine)
    requires base in USER && m.regs[base] as int + BUFFER <= TWO64 && Stored(m.mem, m.regs[base], regs)
    ensures Run(LoadCode(base), m, syms) == Some(t)
    ensures Restored(t, m.regs[base], regs) && t.regs[RSP] == m.regs[RSP] && t.mem == m.mem
  {
    hide Load64, Run, Loads;
    var b := m.regs[base];
    var m1 := m.Set(R15, b);
    Run1(Ins(MovRR(R15, base)), m, syms);
    t := LoadsRun(0, m1, b, syms);
    Then([Ins(MovRR(R15, base))], Loads(0), m, m1, syms);
    forall r: Reg | r != R15 && r != RSP
      ensures t.regs[r] == regs[r]
    {
      OrderCovers(r);
    }
    assert OrderAt(13) == R15;
  }

  /** Every register but rsp has a slot. */
  lemma OrderCovers(r: Reg)
    requires r != RSP
    ensures exists i | 0 <= i < 15 :: OrderAt(i) == r
  {
    var i := if r == RAX then 0 else if r == RBX then 1 else if r == RCX then 2 else if r == RDX then 3
             else if r == RSI then 4 else if r == RDI then 5 else if r == RBP then 14 else r - 2;
    assert OrderAt(i) == r;
  }

  // ---- runs ----

  /** A statement of the run: a save, a load, a switch, or other code with its resulting machine. */
  datatype Op = Save(base: Reg) | Load(base: Reg) | Switch(save: Reg, load: Reg) | Other(after: Machine)

  /** The register file each buffer was last saved with. */
  type Snapshots = map<Word, RegFile>

  function Code(op: Op): seq<Item>
    requires !op.Other?
  {
    match op case Save(b) => SaveCode(b) case Load(b) => LoadCode(b) case Switch(s, l) => SwitchCode(s, l)
  }

  function After(op: Op, m: Machine, syms: Syms): Option<Machine> {
    if op.Other? then Some(op.after) else Run(Code(op), m, syms)
  }

  function Recorded(op: Op, m: Machine, saved: Snapshots): Snapshots {
    match op
    case Save(b) => saved[m.regs[b] := m.regs]
    case Switch(s, _) => saved[m.regs[s] := m.regs]
    case _ => saved
  }

  /** Buffers do not overlap. */
  ghost predicate Apart(buffers: set<Word>) {
    forall b, c | b in buffers && c in buffers && b != c :: b as int + BUFFER <= c || c as int + BUFFER <= b
  }

  ghost predicate Intact(m: Mem, saved: Snapshots) {
    forall b <- saved :: Stored(m, b, saved[b])
  }

  /** The buffers an operation names are the given ones, clear of the stack word; other code writes no buffer. */
  ghost predicate Proper(op: Op, m: Machine, buffers: set<Word>, saved: Snapshots) {
    match op
    case Save(b) => b in USER && m.regs[b] in buffers && Clear(m, buffers)
    case Load(b) => b in USER && m.regs[b] in saved
    case Switch(s, l) => s in USER && l in USER && m.regs[s] in buffers && Clear(m, buffers) &&
      (m.regs[l] in saved || m.regs[l] == m.regs[s])
    case Other(t) => forall b <- buffers :: SameIn(m.mem, t.mem, b, b as int + BUFFER)
  }

  ghost predicate Clear(m: Machine, buffers: set<Word>) {
    forall b <- buffers :: Room(m, b)
  }

  /** What a load delivers. */
  ghost predicate Delivered(op: Op, m: Machine, t: Machine, saved: Snapshots) {
    match op
    case Load(b) => m.regs[b] in saved && Restored(t, m.regs[b], saved[m.regs[b]]) && t.regs[RSP] == m.regs[RSP]
    case Switch(s, l) =>
      var now := saved[m.regs[s] := m.regs];
      m.regs[l] in now && Restored(t, m.regs[l], now[m.regs[l]]) && t.regs[RSP] == m.regs[RSP]
    case _ => true
  }

  lemma HoldsSame(m: Mem, m': Mem, b: Word, regs: RegFile)
    requires Stored(m, b, regs) && SameIn(m, m', b, b as int + BUFFER)
    ensures Stored(m', b, regs)
  {
    hide Load64;
    forall i | 0 <= i < 15
      ensures WordOf(m', b, i) == WordOf(m, b, i)
    {
      Load64Same(m, m', b + 8 * i);
    }
  }

  /** A save records its buffer and keeps the others. */
  lemma SaveKeeps(base: Reg, m: Machine, buffers: set<Word>, saved: Snapshots, syms: Syms) returns (t: Machine)
    requires base in USER && m.regs[base] in buffers && Clear(m, buffers)
    requires Apart(buffers) && saved.Keys <= buffers && Intact(m.mem, saved)
    ensures Run(SaveCode(base), m, syms) == Some(t)
    ensures Intact(t.mem, saved[m.regs[base] := m.regs])
    ensures t.regs == m.regs[R15 := m.regs[base]][R11 := m.regs[base]]
  {
    hide Run, SaveCode, Stored;
    assert Room(m, m.regs[base]);
    t := SaveCorrect(base, m, syms);
    var now := saved[m.regs[base] := m.regs];
    forall b | b in now
      ensures Stored(t.mem, b, now[b])
    {
      if b != m.regs[base] {
        assert b in buffers && Room(m, b);
        assert SameIn(m.mem, t.mem, b, b as int + BUFFER);
        HoldsSame(m.mem, t.mem, b, saved[b]);
      }
    }
  }

  lemma OpKeeps(op: Op, m: Machine, buffers: set<Word>, saved: Snapshots, syms: Syms) returns (t: Machine)
    requires Apart(buffers) && saved.Keys <= buffers && Intact(m.mem, saved) && Proper(op, m, buffers, saved)
    requires forall b <- buffers :: b as int + BUFFER <= TWO64
    ensures After(op, m, syms) == Some(t)
    ensures Recorded(op, m, saved).Keys <= buffers && Intact(t.mem, Recorded(op, m, saved))
    ensures Delivered(op, m, t, saved)
  {
    hide Run, SaveCode, LoadCode, Stored, Restored, Clear, Apart;
    match op
    case Save(b) => t := SaveKeeps(b, m, buffers, saved, syms);
    case Load(b) => t := LoadCorrect(b, m, saved[m.regs[b]], syms);
    case Switch(s, l) =>
      var m1 := SaveKeeps(s, m, buffers, saved, syms);
      var now := saved[m.regs[s] := m.regs];
      assert m1.regs[l] == m.regs[l] && m.regs[l] in now;
      t := LoadCorrect(l, m1, now[m.regs[l]], syms);
      Then(SaveCode(s), LoadCode(l), m, m1, syms);
    case Other(after) =>
      t := after;
      forall b | b in saved
        ensures Stored(t.mem, b, saved[b])
      {
        HoldsSame(m.mem, t.mem, b, saved[b]);
      }
  }

  /** Machine and snapshots after a run; None if an operation faults. */
  function RunAll(ops: seq<Op>, m: Machine, saved: Snapshots, syms: Syms): Option<(Machine, Snapshots)>
    decreases |ops|
  {
    if ops == [] then Some((m, saved))
    else
      match After(ops[0], m, syms)
      case None => None
      case Some(t) => RunAll(ops[1..], t, Recorded(ops[0], m, saved), syms)
  }

  /** Every operation of the run is proper where it happens. */
  ghost predicate AllProper(ops: seq<Op>, m: Machine, buffers: set<Word>, saved: Snapshots, syms: Syms)
    decreases |ops|
  {
    ops == [] ||
    (Proper(ops[0], m, buffers, saved) &&
     (After(ops[0], m, syms).Some? ==>
        AllProper(ops[1..], After(ops[0], m, syms).value, buffers, Recorded(ops[0], m, saved), syms)))
  }

  /** Over any run on disjoint buffers every buffer keeps the register file of its last save. */
  lemma {:induction false} RunKeepsContexts(ops: seq<Op>, m: Machine, buffers: set<Word>, saved: Snapshots, syms: Syms)
    requires Apart(buffers) && saved.Keys <= buffers && Intact(m.mem, saved) && AllProper(ops, m, buffers, saved, syms)
    requires forall b <- buffers :: b as int + BUFFER <= TWO64
    ensures RunAll(ops, m, saved, syms).Some?
    ensures var (t, now) := RunAll(ops, m, saved, syms).value;
            now.Keys <= buffers && Intact(t.mem, now)
    decreases |ops|
  {
    hide After, Recorded, Proper, Intact, Apart;
    if ops != [] {
      var t := OpKeeps(ops[0], m, buffers, saved, syms);
      RunKeepsContexts(ops[1..], t, buffers, Recorded(ops[0], m, saved), syms);
    }
  }

  /** And a load at the end of any such run restores rax to r14 and rbp from the buffer's last save. */
  lemma LoadAfterRun(ops: seq<Op>, base: Reg, m: Machine, buffers: set<Word>, syms: Syms) returns (t: Machine)
    requires Apart(buffers) && AllProper(ops, m, buffers, map[], syms)
    requires forall b <- buffers :: b as int + BUFFER <= TWO64
    requires RunAll(ops, m, map[], syms).Some? ==>
               base in USER && RunAll(ops, m, map[], syms).value.0.regs[base] in RunAll(ops, m, map[], syms).value.1
    ensures RunAll(ops, m, map[], syms).Some?
    ensures var (before, saved) := RunAll(ops, m, map[], syms).value;
            && Run(LoadCode(base), before, syms) == Some(t)
            && before.regs[base] in saved && Restored(t, before.regs[base], saved[before.regs[base]])
            && t.regs[RSP] == before.regs[RSP] && t.mem == before.mem
  {
    hide RunAll, Run, LoadCode, Stored, Restored, AllProper, Apart;
    RunKeepsContexts(ops, m, buffers, map[], syms);
    var (before, saved) := RunAll(ops, m, map[], syms).value;
    t := LoadCorrect(base, before, saved[before.regs[base]], syms);
  }
}
