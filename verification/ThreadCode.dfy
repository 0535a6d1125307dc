/** The instructions of spawn, signal, join and join_all, interleaved one by one on one memory, refine the protocol. */
module ThreadCode {
  import opened Wrappers
  import opened Words
  import opened Memory
  import opened Regs
  import opened Isa
  import opened Assembly
  import opened Codegen
  import opened Semantics
  import opened StmtProofs
  import opened SourceLanguage
  import opened MachineSteps
  import opened Flow
  import opened Threads

  // ---- the code ----

  function LoadAt(d: Reg, off: int): Item {
    Ins(LoadI(W64, d, At(RDI, off)))
  }

  function StoreAt(off: int): Item {
    Ins(StoreI(W64, At(RDI, off), RAX))
  }

  const ADD_ONE: Item := Ins(AluImm(ADD, RAX, 1))
  const SHARED: Item := LeaTo(RDI, FUTEX)
  const FUTEX_CALL: Word := 202

  /** A worker's signal, after its function has returned. */
  const SIGNAL: seq<Item> := [SHARED, LoadAt(RAX, DONE), ADD_ONE, StoreAt(DONE)]

  /** The parent's side of a spawn, after the clone call. */
  const SPAWN: seq<Item> := [Ins(Instr.Push(RAX)), SHARED, LoadAt(RAX, SPAWNED), ADD_ONE, StoreAt(SPAWNED),
    Ins(Instr.Pop(RAX))]

  const GT: Cc := 15
  const BELOW: Cc := 2
  const ABE: Cc := 3
  const EQ: Cc := 4

  const JOIN: seq<Item> :=
    [Ins(MovImm(R14, JOIN_TRIES)), Lab("jw"), SHARED, LoadAt(RAX, DONE), LoadAt(RCX, JOINED), Ins(Alu(CMP, RAX, RCX)),
     JccTo(GT, "jd"), Ins(Alu(CMP, RCX, RAX)), JccTo(BELOW, "jd"), SHARED, Ins(Alu(XOR, RSI, RSI)), LoadAt(RDX, DONE),
     Ins(Alu(XOR, R10, R10)), Ins(MovImm(RAX, FUTEX_CALL)), Ins(Syscall), Ins(Unary(DEC, R14)),
     Ins(Alu(TEST, R14, R14)), JccTo(EQ, "jd"), JmpTo("jw"),
     Lab("jd"), SHARED, LoadAt(RAX, JOINED), ADD_ONE, StoreAt(JOINED)]

  const JOIN_ALL: seq<Item> :=
    [Ins(MovImm(R14, ALL_TRIES)), Lab("ja_w"), SHARED, LoadAt(RAX, DONE), LoadAt(RCX, SPAWNED), Ins(Alu(CMP, RAX, RCX)),
     JccTo(ABE, "ja_d"),
     Ins(Alu(XOR, RSI, RSI)), LoadAt(RDX, DONE), Ins(Alu(XOR, R10, R10)), Ins(MovImm(RAX, FUTEX_CALL)), Ins(Syscall),
     Ins(Unary(DEC, R14)), Ins(Alu(TEST, R14, R14)), JccTo(EQ, "ja_d"), JmpTo("ja_w"), Lab("ja_d")]

  // ---- threads on one memory ----

  /** A thread: the next item of its code, its registers and flags. */
  datatype Core = Core(k: nat, regs: RegFile, flags: Flags)

  /** What a kernel call leaves of the registers. */
  ghost predicate KernelKeeps(a: RegFile, b: RegFile) {
    forall r: Reg | r != RAX && r != RCX && r != R11 :: b[r] == a[r]
  }

  function ListingFor(code: seq<Item>): Listing {
    Text(code, seq<Word>(|code| + 1, _ => 0))
  }

  /** One item of a thread's code; a kernel call returns with the given registers and writes no memory. */
  function CoreStep(code: seq<Item>, c: Core, mem: Mem, back: RegFile, syms: Syms): Option<(Core, Mem)> {
    if c.k < |code| && code[c.k] == Ins(Syscall) then Some((Core(c.k + 1, back, c.flags), mem))
    else
      match FlowStep(ListingFor(code), Spot(c.k, Machine(c.regs, c.flags, mem)), syms)
      case None => None
      case Some(t) => Some((Core(t.pc, t.m.regs, t.m.flags), t.m.mem))
  }

  /** What the main thread is executing. */
  datatype Doing = Ordinary | Spawning | Joining | JoiningAll

  function CodeOf(d: Doing): seq<Item> {
    match d case Ordinary => [] case Spawning => SPAWN case Joining => JOIN case JoiningAll => JOIN_ALL
  }

  datatype System = System(mem: Mem, doing: Doing, main: Core, workers: seq<Core>)

  /** Who moves. Ordinary code is whatever a thread executes outside these statements: any registers, any memory
      but the three shared words. */
  datatype Move =
    | MainOrdinary(core: Core, mem: Mem)
    | CloneReturns(child: Core)
    | Begin(doing: Doing)
    | Finish
    | MainItem(back: RegFile)
    | WorkerOrdinary(i: nat, core: Core, mem: Mem)
    | WorkerItem(i: nat, back: RegFile)

  ghost predicate SharedSame(a: Mem, b: Mem, at: int) {
    SameIn(a, b, at, at + 24)
  }

  /** The stack word of a spawn is not one of the shared words. */
  predicate StackApart(c: Core, at: int) {
    c.regs[RSP] >= 8 && (c.regs[RSP] <= at || at + 24 <= c.regs[RSP] as int - 8)
  }

  /** The moves the threads can make. */
  ghost predicate Allowed(s: System, v: Move, at: int) {
    match v
    case MainOrdinary(c, mem) => s.doing.Ordinary? && c.k == 0 && SharedSame(s.mem, mem, at)
    case CloneReturns(child) => s.doing.Ordinary? && child.k == 0 && StackApart(s.main, at)
    case Begin(d) => s.doing.Ordinary? && (d.Joining? || d.JoiningAll?)
    case Finish => s.main.k == |CodeOf(s.doing)|
    case MainItem(back) => s.main.k < |CodeOf(s.doing)| && KernelKeeps(s.main.regs, back)
    case WorkerOrdinary(i, c, mem) => i < |s.workers| && s.workers[i].k == 0 && c.k == 0 && SharedSame(s.mem, mem, at)
    case WorkerItem(i, back) => i < |s.workers| && s.workers[i].k < |SIGNAL| && KernelKeeps(s.workers[i].regs, back)
  }

  function Moved(s: System, v: Move, syms: Syms): Option<System> {
    match v
    case MainOrdinary(c, mem) => Some(s.(main := c, mem := mem))
    case CloneReturns(child) => Some(s.(doing := Spawning, main := s.main.(k := 0), workers := s.workers + [child]))
    case Begin(d) => Some(s.(doing := d, main := s.main.(k := 0)))
    case Finish => Some(s.(doing := Ordinary, main := s.main.(k := 0)))
    case MainItem(back) =>
      (match CoreStep(CodeOf(s.doing), s.main, s.mem, back, syms)
       case None => None
       case Some(r) => Some(s.(main := r.0, mem := r.1)))
    case WorkerOrdinary(i, c, mem) =>
      if i < |s.workers| then Some(s.(workers := s.workers[i := c], mem := mem)) else None
    case WorkerItem(i, back) =>
      if i >= |s.workers| then None
      else
        match CoreStep(SIGNAL, s.workers[i], s.mem, back, syms)
        case None => None
        case Some(r) => Some(s.(workers := s.workers[i := r.0], mem := r.1))
  }

  // ---- where the threads are in the protocol ----

  predicate SignalAt(c: Core, w: Worker, at: int) {
    match w
    case Running => c.k == 0 || (c.k == 1 && c.regs[RDI] == at)
    case Read(v) => c.k == 2 && c.regs[RAX] == v && c.regs[RDI] == at
    case Ready(v) => c.k == 3 && c.regs[RAX] == v && c.regs[RDI] == at
    case Signalled => c.k == 4
  }

  predicate SpawnAt(c: Core, p: Main, at: int) {
    match p
    case SpawnRead => (c.k == 0 && StackApart(c, at)) || c.k == 1 || (c.k == 2 && c.regs[RDI] == at)
    case SpawnAdd(v) => c.k == 3 && c.regs[RAX] == v && c.regs[RDI] == at
    case SpawnStore(v) => c.k == 4 && c.regs[RAX] == v && c.regs[RDI] == at
    case Free => c.k == 5 || c.k == 6
    case _ => false
  }

  predicate NotGreater(d: Word, j: Word) {
    Holds(GT, AluFlags(CMP, d, j)) == Some(false)
  }

  predicate JoinAt(c: Core, p: Main, at: int) {
    match p
    case Free => c.k == 0 || c.k == 24
    case JoinReadDone(n) => n >= 1 && c.regs[R14] == n &&
      (c.k == 1 || c.k == 2 || (c.k == 3 && c.regs[RDI] == at) || c.k == 18)
    case JoinReadJoined(n, d) => n >= 1 && c.regs[R14] == n && c.k == 4 && c.regs[RAX] == d && c.regs[RDI] == at
    case JoinDecide(n, d, j) =>
      && n >= 1 && c.regs[R14] == n && c.regs[RAX] == d && c.regs[RCX] == j
      && (c.k == 5 || (c.k == 6 && c.flags == AluFlags(CMP, d, j)) || (c.k == 7 && NotGreater(d, j))
          || (c.k == 8 && NotGreater(d, j) && c.flags == AluFlags(CMP, j, d)))
    case JoinWait(n) => n >= 1 && WaitAt(c, n, 9, at)
    case BumpRead(_) => c.k == 19 || c.k == 20 || (c.k == 21 && c.regs[RDI] == at)
    case BumpAdd(_, v) => c.k == 22 && c.regs[RAX] == v && c.regs[RDI] == at
    case BumpStore(_, v) => c.k == 23 && c.regs[RAX] == v && c.regs[RDI] == at
    case _ => false
  }

  /** Between the tests and the retry: six items from `first`, then the countdown. */
  predicate WaitAt(c: Core, n: nat, first: nat, at: int) {
    || (first <= c.k <= first + 6 && c.regs[R14] == n && (first + 1 <= c.k <= first + 2 ==> c.regs[RDI] == at))
    || (c.k == first + 7 && c.regs[R14] == n - 1)
    || (c.k == first + 8 && c.regs[R14] == n - 1 && Holds(EQ, c.flags) == Some(n == 1))
  }

  /** The same items, but without taking the address again. */
  predicate JoinAllAt(c: Core, p: Main, at: int) {
    match p
    case Free => c.k == 0 || c.k == 16 || c.k == 17
    case AllReadDone(n) => n >= 1 && c.regs[R14] == n &&
      (c.k == 1 || c.k == 2 || (c.k == 3 && c.regs[RDI] == at) || c.k == 15)
    case AllReadSpawned(n, d) => n >= 1 && c.regs[R14] == n && c.k == 4 && c.regs[RAX] == d && c.regs[RDI] == at
    case AllDecide(n, d, s) =>
      && n >= 1 && c.regs[R14] == n && c.regs[RAX] == d && c.regs[RCX] == s && c.regs[RDI] == at
      && (c.k == 5 || (c.k == 6 && c.flags == AluFlags(CMP, d, s)))
    case AllWait(n) => n >= 1 && c.k >= 7 && WaitAt(c, n, 6, at)
    case _ => false
  }

  predicate MainAt(d: Doing, c: Core, p: Main, at: int) {
    match d
    case Ordinary => p.Free? && c.k == 0
    case Spawning => SpawnAt(c, p, at)
    case Joining => JoinAt(c, p, at)
    case JoiningAll => JoinAllAt(c, p, at)
  }

  /** The system is in the protocol's state. */
  ghost predicate Refines(y: System, s: State, at: int) {
    && SharedAt(y.mem, at, s) && MainAt(y.doing, y.main, s.main, at)
    && |y.workers| == |s.workers| && forall i | 0 <= i < |s.workers| :: SignalAt(y.workers[i], s.workers[i], at)
  }

  // ---- single items ----

  predicate Placed3(at: int, syms: Syms) {
    FUTEX in syms && syms[FUTEX] == at && 0 <= at && at + 24 <= TWO64
  }

  lemma ItemRuns(code: seq<Item>, c: Core, mem: Mem, back: RegFile, t: Machine, syms: Syms)
    requires c.k < |code| && code[c.k] != Ins(Syscall) &&
             Step(code[c.k], Machine(c.regs, c.flags, mem), syms) == Some(t)
    ensures CoreStep(code, c, mem, back, syms) == Some((Core(c.k + 1, t.regs, t.flags), t.mem))
  {
    hide Step, FlowStep;
    FlowStepIs(ListingFor(code), c.k, Machine(c.regs, c.flags, mem), syms);
  }

  lemma SharedRuns(code: seq<Item>, c: Core, mem: Mem, back: RegFile, at: int, syms: Syms)
    requires c.k < |code| && code[c.k] == SHARED && Placed3(at, syms)
    ensures CoreStep(code, c, mem, back, syms) == Some((Core(c.k + 1, c.regs[RDI := at], c.flags), mem))
  {
    ItemRuns(code, c, mem, back, Machine(c.regs, c.flags, mem).Set(RDI, at), syms);
  }

  lemma LoadRuns(code: seq<Item>, c: Core, mem: Mem, back: RegFile, d: Reg, off: int, at: int, syms: Syms)
    requires c.k < |code| && code[c.k] == LoadAt(d, off) && c.regs[RDI] == at && 0 <= off <= 16 && Placed3(at, syms)
    ensures CoreStep(code, c, mem, back,
            syms) == Some((Core(c.k + 1, c.regs[d := Load64(mem, at + off)], c.flags), mem))
  {
    hide Load64, Step;
    Read64(Machine(c.regs, c.flags, mem), d, RDI, off, syms);
    ItemRuns(code, c, mem, back, Machine(c.regs, c.flags, mem).Set(d, Load64(mem, at + off)), syms);
  }

  lemma StoreRuns(code: seq<Item>, c: Core, mem: Mem, back: RegFile, off: int, at: int, syms: Syms)
    requires c.k < |code| && code[c.k] == StoreAt(off) && c.regs[RDI] == at && 0 <= off <= 16 && Placed3(at, syms)
    ensures CoreStep(code, c, mem, back,
            syms) == Some((Core(c.k + 1, c.regs, c.flags), Store64(mem, at + off, c.regs[RAX])))
  {
    hide Store64, Step;
    StoreStep(Machine(c.regs, c.flags, mem), RDI, off, RAX, syms);
    ItemRuns(code, c, mem, back, Machine(c.regs, c.flags, Store64(mem, at + off, c.regs[RAX])), syms);
  }

  lemma AddRuns(code: seq<Item>, c: Core, mem: Mem, back: RegFile, syms: Syms) returns (f: Flags)
    requires c.k < |code| && code[c.k] == ADD_ONE
    ensures CoreStep(code, c, mem, back, syms) == Some((Core(c.k + 1, c.regs[RAX := Bump(c.regs[RAX])], f), mem))
  {
    hide AluFlags, AluResult;
    f := AluFlags(ADD, c.regs[RAX], 1);
    ItemRuns(code, c, mem, back, Machine(c.regs[RAX := Bump(c.regs[RAX])], f, mem), syms);
  }

  lemma CompareRuns(code: seq<Item>, c: Core, mem: Mem, back: RegFile, a: Reg, b: Reg, syms: Syms)
    requires c.k < |code| && code[c.k] == Ins(Alu(CMP, a, b))
    ensures CoreStep(code, c, mem, back,
            syms) == Some((Core(c.k + 1, c.regs, AluFlags(CMP, c.regs[a], c.regs[b])), mem))
  {
    hide AluFlags;
    ItemRuns(code, c, mem, back, Machine(c.regs, AluFlags(CMP, c.regs[a], c.regs[b]), mem), syms);
  }

  lemma ImmRuns(code: seq<Item>, c: Core, mem: Mem, back: RegFile, d: Reg, v: Word, syms: Syms)
    requires c.k < |code| && code[c.k] == Ins(MovImm(d, v))
    ensures CoreStep(code, c, mem, back, syms) == Some((Core(c.k + 1, c.regs[d := v], c.flags), mem))
  {
    ItemRuns(code, c, mem, back, Machine(c.regs[d := v], c.flags, mem), syms);
  }

  lemma ClearRuns(code: seq<Item>, c: Core, mem: Mem, back: RegFile, d: Reg, syms: Syms) returns (f: Flags, v: Word)
    requires c.k < |code| && code[c.k] == Ins(Alu(XOR, d, d))
    ensures CoreStep(code, c, mem, back, syms) == Some((Core(c.k + 1, c.regs[d := v], f), mem))
  {
    hide AluFlags, AluResult;
    f, v := AluFlags(XOR, c.regs[d], c.regs[d]), AluResult(XOR, c.regs[d], c.regs[d]);
    ItemRuns(code, c, mem, back, Machine(c.regs[d := v], f, mem), syms);
  }

  lemma CountRuns(code: seq<Item>, c: Core, mem: Mem, back: RegFile, syms: Syms) returns (f: Flags)
    requires c.k < |code| && code[c.k] == Ins(Unary(DEC, R14)) && c.regs[R14] >= 1
    ensures CoreStep(code, c, mem, back, syms) == Some((Core(c.k + 1, c.regs[R14 := c.regs[R14] - 1], f), mem))
  {
    hide UnaryFlags;
    f := UnaryFlags(DEC, c.regs[R14], c.flags);
    ItemRuns(code, c, mem, back, Machine(c.regs[R14 := c.regs[R14] - 1], f, mem), syms);
  }

  lemma TestRuns(code: seq<Item>, c: Core, mem: Mem, back: RegFile, syms: Syms) returns (f: Flags)
    requires c.k < |code| && code[c.k] == Ins(Alu(TEST, R14, R14))
    ensures CoreStep(code, c, mem, back, syms) == Some((Core(c.k + 1, c.regs, f), mem))
    ensures Holds(EQ, f) == Some(c.regs[R14] == 0)
  {
    AndSelf(c.regs[R14]);
    f := AluFlags(TEST, c.regs[R14], c.regs[R14]);
    hide AluFlags, Holds, Bitwise;
    ItemRuns(code, c, mem, back, Machine(c.regs, f, mem), syms);
  }

  lemma LabelPassed(code: seq<Item>, c: Core, mem: Mem, back: RegFile, syms: Syms)
    requires c.k < |code| && code[c.k].Lab?
    ensures CoreStep(code, c, mem, back, syms) == Some((Core(c.k + 1, c.regs, c.flags), mem))
  {
    ItemRuns(code, c, mem, back, Machine(c.regs, c.flags, mem), syms);
  }

  lemma CallReturns(code: seq<Item>, c: Core, mem: Mem, back: RegFile, syms: Syms)
    requires c.k < |code| && code[c.k] == Ins(Syscall)
    ensures CoreStep(code, c, mem, back, syms) == Some((Core(c.k + 1, back, c.flags), mem))
  {
  }

  lemma BranchRuns(code: seq<Item>, c: Core, mem: Mem, back: RegFile, cc: Cc, l: string, to: nat, taken: bool,
                   syms: Syms)
    requires c.k < |code| && code[c.k] == JccTo(cc, l) && Target(code, l) == Some(to) &&
             Holds(cc, c.flags) == Some(taken)
    ensures CoreStep(code, c, mem, back, syms) == Some((Core(if taken then to else c.k + 1, c.regs, c.flags), mem))
  {
    hide Holds, Target;
  }

  lemma JumpRuns(code: seq<Item>, c: Core, mem: Mem, back: RegFile, l: string, to: nat, syms: Syms)
    requires c.k < |code| && code[c.k] == JmpTo(l) && Target(code, l) == Some(to)
    ensures CoreStep(code, c, mem, back, syms) == Some((Core(to, c.regs, c.flags), mem))
  {
    hide Target;
  }

  /** Labels of the two loops. */
  lemma JoinTargets()
    ensures Target(JOIN, "jw") == Some(1) && Target(JOIN, "jd") == Some(19)
  {
    assert JOIN[1] == Lab("jw") && JOIN[19] == Lab("jd");
    OnlyLabels(JOIN, 1, 19);
  }

  lemma AllTargets()
    ensures Target(JOIN_ALL, "ja_w") == Some(1) && Target(JOIN_ALL, "ja_d") == Some(16)
  {
    assert JOIN_ALL[1] == Lab("ja_w") && JOIN_ALL[16] == Lab("ja_d");
    OnlyLabels(JOIN_ALL, 1, 16);
  }

  lemma OnlyLabels(code: seq<Item>, a: nat, b: nat)
    requires a < b < |code| && code[a].Lab? && code[b].Lab? && code[a] != code[b]
    requires forall k | 0 <= k < |code| && k != a && k != b :: !code[k].Lab?
    ensures Target(code, code[a].name) == Some(a) && Target(code, code[b].name) == Some(b)
  {
    TargetIs(ListingFor(code), a, code[a].name);
    TargetIs(ListingFor(code), b, code[b].name);
  }

  // ---- one item of the main thread ----

  /** The protocol's moves for one item: none, or one. */
  predicate MovesTo(s: State, es: seq<Event>, s': State) {
    if es == [] then s' == s else |es| == 1 && Do(s, es[0]) == Some(s')
  }

  /** One item of a statement, matched by the protocol. */
  ghost predicate Matched(d: Doing, c: Core, mem: Mem, back: RegFile, s: State, es: seq<Event>, s': State, at: int,
                          syms: Syms) {
    var r := CoreStep(CodeOf(d), c, mem, back, syms);
    && r.Some? && MovesTo(s, es, s') && SharedAt(r.value.1, at, s') && MainAt(d, r.value.0, s'.main, at) &&
         s'.workers == s.workers
  }

  lemma SpawnItem(c: Core, mem: Mem, back: RegFile, s: State, at: int, syms: Syms) returns (es: seq<Event>, s': State)
    requires SpawnAt(c, s.main, at) && SharedAt(mem, at, s) && Placed3(at, syms) && c.k < |SPAWN|
    ensures Matched(Spawning, c, mem, back, s, es, s', at, syms)
  {
    hide CoreStep, Load64, Store64, JoinLeaves, AllLeaves, Bump;
    es, s' := [], s;
    if c.k == 0 {
      PushApart(c, mem, back, s, at, syms);
    } else if c.k == 1 {
      SharedRuns(SPAWN, c, mem, back, at, syms);
    } else if c.k == 2 {
      LoadRuns(SPAWN, c, mem, back, RAX, SPAWNED, at, syms);
      es, s' := [MainStep], StepMain(s).value;
    } else if c.k == 3 {
      var f := AddRuns(SPAWN, c, mem, back, syms);
      es, s' := [MainStep], StepMain(s).value;
    } else if c.k == 4 {
      StoreRuns(SPAWN, c, mem, back, SPAWNED, at, syms);
      SharedStored(mem, at, s, SPAWNED, c.regs[RAX]);
      es, s' := [MainStep], StepMain(s).value;
    } else {
      PopRuns(c, mem, back, syms);
    }
  }

  /** Storing one of the three words changes that word only. */
  lemma SharedStored(mem: Mem, at: int, s: State, off: int, v: Word)
    requires SharedAt(mem, at, s) && off in {DONE, JOINED, SPAWNED}
    ensures var m' := Store64(mem, at + off, v);
            && Load64(m', at + DONE) == (if off == DONE then v else s.done)
            && Load64(m', at + JOINED) == (if off == JOINED then v else s.joined)
            && Load64(m', at + SPAWNED) == (if off == SPAWNED then v else s.spawned)
  {
    hide Load64, Store64;
    LoadStore64(mem, at + off, v);
    if off != DONE { Load64Other(mem, at + off, v, at + DONE); }
    if off != JOINED { Load64Other(mem, at + off, v, at + JOINED); }
    if off != SPAWNED { Load64Other(mem, at + off, v, at + SPAWNED); }
  }

  lemma PushApart(c: Core, mem: Mem, back: RegFile, s: State, at: int, syms: Syms)
    requires c.k == 0 && StackApart(c, at) && SharedAt(mem, at, s)
    ensures var r := CoreStep(SPAWN, c, mem, back, syms); r.Some? && r.value.0.k == 1 && SharedAt(r.value.1, at, s)
  {
    hide Load64, Store64, PushValue;
    var m := Machine(c.regs, c.flags, mem);
    PushWord(m, RAX, syms);
    hide Step;
    ItemRuns(SPAWN, c, mem, back, PushValue(m, c.regs[RAX]), syms);
    var t := PushValue(m, c.regs[RAX]);
    Load64Same(mem, t.mem, at + DONE);
    Load64Same(mem, t.mem, at + JOINED);
    Load64Same(mem, t.mem, at + SPAWNED);
  }

  lemma PopRuns(c: Core, mem: Mem, back: RegFile, syms: Syms)
    requires c.k == 5
    ensures var r := CoreStep(SPAWN, c, mem, back, syms); r.Some? && r.value.0.k == 6 && r.value.1 == mem
  {
    hide Load64;
    var sp: int := c.regs[RSP];
    ItemRuns(SPAWN, c, mem, back, Machine(c.regs[RSP := Wrap(sp + 8)][RAX := Load64(mem, sp)], c.flags, mem), syms);
  }

  // ---- join ----

  lemma JoinCodeReads()
    ensures |JOIN| == 24
    ensures JOIN[0] == Ins(MovImm(R14, JOIN_TRIES)) && JOIN[1].Lab? && JOIN[2] == SHARED &&
            JOIN[3] == LoadAt(RAX, DONE) && JOIN[4] == LoadAt(RCX, JOINED)
  {
    hide LoadAt, StoreAt, ADD_ONE, SHARED;
  }

  lemma JoinCodeTests()
    ensures |JOIN| == 24
    ensures JOIN[5] == Ins(Alu(CMP, RAX, RCX)) && JOIN[6] == JccTo(GT, "jd") && JOIN[7] == Ins(Alu(CMP, RCX, RAX)) &&
            JOIN[8] == JccTo(BELOW, "jd")
  {
    hide LoadAt, StoreAt, ADD_ONE, SHARED;
  }

  lemma JoinCodeMiddle()
    ensures |JOIN| == 24
    ensures JOIN[9] == SHARED && JOIN[10] == Ins(Alu(XOR, RSI, RSI)) && JOIN[11] == LoadAt(RDX, DONE) &&
            JOIN[12] == Ins(Alu(XOR, R10, R10))
    ensures JOIN[13] == Ins(MovImm(RAX, FUTEX_CALL)) && JOIN[14] == Ins(Syscall) && JOIN[15] == Ins(Unary(DEC, R14)) &&
            JOIN[16] == Ins(Alu(TEST, R14, R14))
  {
    hide LoadAt, StoreAt, ADD_ONE, SHARED;
  }

  lemma JoinCodeLate()
    ensures |JOIN| == 24
    ensures JOIN[17] == JccTo(EQ, "jd") && JOIN[18] == JmpTo("jw") && JOIN[19].Lab? && JOIN[20] == SHARED &&
            JOIN[21] == LoadAt(RAX, JOINED)
    ensures JOIN[22] == ADD_ONE && JOIN[23] == StoreAt(JOINED)
  {
    hide LoadAt, StoreAt, ADD_ONE, SHARED;
  }

  lemma AllCodeEarly()
    ensures |JOIN_ALL| == 17
    ensures JOIN_ALL[0] == Ins(MovImm(R14, ALL_TRIES)) && JOIN_ALL[1].Lab? && JOIN_ALL[2] == SHARED &&
            JOIN_ALL[3] == LoadAt(RAX, DONE)
    ensures JOIN_ALL[4] == LoadAt(RCX, SPAWNED) && JOIN_ALL[5] == Ins(Alu(CMP, RAX, RCX)) &&
            JOIN_ALL[6] == JccTo(ABE, "ja_d")
  {
    hide LoadAt, StoreAt, ADD_ONE, SHARED;
  }

  lemma AllCodeLate()
    ensures |JOIN_ALL| == 17
    ensures JOIN_ALL[7] == Ins(Alu(XOR, RSI, RSI)) && JOIN_ALL[8] == LoadAt(RDX, DONE) &&
            JOIN_ALL[9] == Ins(Alu(XOR, R10, R10))
    ensures JOIN_ALL[10] == Ins(MovImm(RAX, FUTEX_CALL)) && JOIN_ALL[11] == Ins(Syscall) &&
            JOIN_ALL[12] == Ins(Unary(DEC, R14))
    ensures JOIN_ALL[13] == Ins(Alu(TEST, R14, R14)) && JOIN_ALL[14] == JccTo(EQ, "ja_d") &&
            JOIN_ALL[15] == JmpTo("ja_w") && JOIN_ALL[16].Lab?
  {
    hide LoadAt, StoreAt, ADD_ONE, SHARED;
  }

  lemma JoinItem(c: Core, mem: Mem, back: RegFile, s: State, at: int, syms: Syms) returns (es: seq<Event>, s': State)
    requires JoinAt(c, s.main, at) && SharedAt(mem, at, s) && Placed3(at, syms) && c.k < |JOIN| &&
             KernelKeeps(c.regs, back)
    ensures Matched(Joining, c, mem, back, s, es, s', at, syms)
  {
    hide CoreStep, MainAt, SharedAt, JoinAt;
    if c.k <= 4 {
      es, s' := JoinReads(c, mem, back, s, at, syms);
    } else if c.k <= 8 {
      es, s' := JoinTests(c, mem, back, s, at, syms);
    } else if c.k <= 16 {
      es, s' := [], s;
      JoinWaits(c, mem, back, s, at, syms);
    } else if c.k <= 18 {
      es, s' := JoinRetries(c, mem, back, s, at, syms);
    } else {
      es, s' := JoinBumps(c, mem, back, s, at, syms);
    }
  }

  lemma JoinReads(c: Core, mem: Mem, back: RegFile, s: State, at: int, syms: Syms) returns (es: seq<Event>, s': State)
    requires JoinAt(c, s.main, at) && SharedAt(mem, at, s) && Placed3(at, syms) && c.k <= 4
    ensures Matched(Joining, c, mem, back, s, es, s', at, syms)
  {
    JoinCodeReads();
    hide JOIN, LoadAt, StoreAt, ADD_ONE, SHARED;
    hide CoreStep, Load64, JoinLeaves, AllLeaves, Bump, Holds, AluFlags;
    es, s' := [], s;
    if c.k == 0 {
      ImmRuns(JOIN, c, mem, back, R14, JOIN_TRIES, syms);
      es, s' := [StartJoin], Do(s, StartJoin).value;
    } else if c.k == 1 {
      LabelPassed(JOIN, c, mem, back, syms);
    } else if c.k == 2 {
      SharedRuns(JOIN, c, mem, back, at, syms);
    } else if c.k == 3 {
      LoadRuns(JOIN, c, mem, back, RAX, DONE, at, syms);
      es, s' := [MainStep], StepMain(s).value;
    } else {
      LoadRuns(JOIN, c, mem, back, RCX, JOINED, at, syms);
      es, s' := [MainStep], StepMain(s).value;
    }
  }

  /** What the two tests read from the flags. */
  lemma TestsMean(d: Word, j: Word)
    ensures Holds(GT, AluFlags(CMP, d, j)).Some? && Holds(BELOW, AluFlags(CMP, j, d)).Some?
    ensures JoinLeaves(d, j) <==>
              Holds(GT, AluFlags(CMP, d, j)) == Some(true) || Holds(BELOW, AluFlags(CMP, j, d)) == Some(true)
  {
    ConditionNames();
    CompareMeaning(GT, d, j);
    CompareMeaning(BELOW, j, d);
  }

  lemma JoinTests(c: Core, mem: Mem, back: RegFile, s: State, at: int, syms: Syms) returns (es: seq<Event>, s': State)
    requires JoinAt(c, s.main, at) && SharedAt(mem, at, s) && Placed3(at, syms) && 5 <= c.k <= 8
    ensures Matched(Joining, c, mem, back, s, es, s', at, syms)
  {
    JoinCodeTests();
    hide JOIN, LoadAt, StoreAt, ADD_ONE, SHARED;
    hide CoreStep, Load64, JoinLeaves, AllLeaves, Bump, Holds, AluFlags;
    es, s' := [], s;
    JoinTargets();
    TestsMean(s.main.d, s.main.j);
    if c.k == 5 {
      CompareRuns(JOIN, c, mem, back, RAX, RCX, syms);
    } else if c.k == 6 {
      var taken := Holds(GT, c.flags).value;
      BranchRuns(JOIN, c, mem, back, GT, "jd", 19, taken, syms);
      if taken { es, s' := [MainStep], StepMain(s).value; }
    } else if c.k == 7 {
      CompareRuns(JOIN, c, mem, back, RCX, RAX, syms);
    } else {
      BranchRuns(JOIN, c, mem, back, BELOW, "jd", 19, Holds(BELOW, c.flags).value, syms);
      es, s' := [MainStep], StepMain(s).value;
    }
  }

  lemma JoinWaits(c: Core, mem: Mem, back: RegFile, s: State, at: int, syms: Syms)
    requires JoinAt(c, s.main, at) && SharedAt(mem, at, s) && Placed3(at, syms) && 9 <= c.k <= 16 &&
             KernelKeeps(c.regs, back)
    ensures Matched(Joining, c, mem, back, s, [], s, at, syms)
  {
    JoinCodeMiddle();
    hide JOIN, LoadAt, StoreAt, ADD_ONE, SHARED;
    hide CoreStep, Load64, Holds, AluFlags;
    if c.k == 9 {
      SharedRuns(JOIN, c, mem, back, at, syms);
    } else if c.k == 10 {
      var f, v := ClearRuns(JOIN, c, mem, back, RSI, syms);
    } else if c.k == 11 {
      LoadRuns(JOIN, c, mem, back, RDX, DONE, at, syms);
    } else if c.k == 12 {
      var f, v := ClearRuns(JOIN, c, mem, back, R10, syms);
    } else if c.k == 13 {
      ImmRuns(JOIN, c, mem, back, RAX, FUTEX_CALL, syms);
    } else if c.k == 14 {
      CallReturns(JOIN, c, mem, back, syms);
    } else if c.k == 15 {
      var f := CountRuns(JOIN, c, mem, back, syms);
    } else {
      var f := TestRuns(JOIN, c, mem, back, syms);
    }
  }

  lemma JoinRetries(c: Core, mem: Mem, back: RegFile, s: State, at: int, syms: Syms) returns (es: seq<Event>, s': State)
    requires JoinAt(c, s.main, at) && SharedAt(mem, at, s) && 17 <= c.k <= 18
    ensures Matched(Joining, c, mem, back, s, es, s', at, syms)
  {
    JoinCodeLate();
    hide JOIN, LoadAt, StoreAt, ADD_ONE, SHARED;
    hide CoreStep, Load64, JoinLeaves, AllLeaves, Bump, Holds, AluFlags;
    es, s' := [], s;
    JoinTargets();
    if c.k == 17 {
      BranchRuns(JOIN, c, mem, back, EQ, "jd", 19, Holds(EQ, c.flags).value, syms);
      es, s' := [MainStep], StepMain(s).value;
    } else {
      JumpRuns(JOIN, c, mem, back, "jw", 1, syms);
    }
  }

  lemma JoinBumps(c: Core, mem: Mem, back: RegFile, s: State, at: int, syms: Syms) returns (es: seq<Event>, s': State)
    requires JoinAt(c, s.main, at) && SharedAt(mem, at, s) && Placed3(at, syms) && 19 <= c.k < 24
    ensures Matched(Joining, c, mem, back, s, es, s', at, syms)
  {
    JoinCodeLate();
    hide JOIN, LoadAt, StoreAt, ADD_ONE, SHARED;
    hide CoreStep, Load64, Store64, JoinLeaves, AllLeaves, Bump;
    es, s' := [], s;
    if c.k == 19 {
      LabelPassed(JOIN, c, mem, back, syms);
    } else if c.k == 20 {
      SharedRuns(JOIN, c, mem, back, at, syms);
    } else if c.k == 21 {
      LoadRuns(JOIN, c, mem, back, RAX, JOINED, at, syms);
      es, s' := [MainStep], StepMain(s).value;
    } else if c.k == 22 {
      var f := AddRuns(JOIN, c, mem, back, syms);
      es, s' := [MainStep], StepMain(s).value;
    } else {
      StoreRuns(JOIN, c, mem, back, JOINED, at, syms);
      SharedStored(mem, at, s, JOINED, c.regs[RAX]);
      es, s' := [MainStep], StepMain(s).value;
    }
  }

  // ---- join_all ----

  lemma JoinAllItem(c: Core, mem: Mem, back: RegFile, s: State, at: int, syms: Syms) returns (es: seq<Event>, s': State)
    requires JoinAllAt(c, s.main, at) && SharedAt(mem, at, s) && Placed3(at, syms) && c.k < |JOIN_ALL| &&
             KernelKeeps(c.regs, back)
    ensures Matched(JoiningAll, c, mem, back, s, es, s', at, syms)
  {
    hide CoreStep, MainAt, SharedAt, JoinAllAt;
    if c.k <= 4 {
      es, s' := AllReads(c, mem, back, s, at, syms);
    } else if c.k <= 6 {
      es, s' := AllTests(c, mem, back, s, at, syms);
    } else if c.k <= 13 {
      es, s' := [], s;
      AllWaits(c, mem, back, s, at, syms);
    } else {
      es, s' := AllRetries(c, mem, back, s, at, syms);
    }
  }

  lemma AllMeans(d: Word, k: Word)
    ensures Holds(ABE, AluFlags(CMP, d, k)).Some?
    ensures AllLeaves(d, k) <==> Holds(ABE, AluFlags(CMP, d, k)) == Some(true)
  {
    ConditionNames();
    CompareMeaning(ABE, d, k);
  }

  lemma AllReads(c: Core, mem: Mem, back: RegFile, s: State, at: int, syms: Syms) returns (es: seq<Event>, s': State)
    requires JoinAllAt(c, s.main, at) && SharedAt(mem, at, s) && Placed3(at, syms) && c.k <= 4
    ensures Matched(JoiningAll, c, mem, back, s, es, s', at, syms)
  {
    AllCodeEarly();
    hide JOIN_ALL, LoadAt, StoreAt, ADD_ONE, SHARED;
    hide CoreStep, Load64, JoinLeaves, AllLeaves, Bump, Holds, AluFlags;
    es, s' := [], s;
    if c.k == 0 {
      ImmRuns(JOIN_ALL, c, mem, back, R14, ALL_TRIES, syms);
      es, s' := [StartJoinAll], Do(s, StartJoinAll).value;
    } else if c.k == 1 {
      LabelPassed(JOIN_ALL, c, mem, back, syms);
    } else if c.k == 2 {
      SharedRuns(JOIN_ALL, c, mem, back, at, syms);
    } else if c.k == 3 {
      LoadRuns(JOIN_ALL, c, mem, back, RAX, DONE, at, syms);
      es, s' := [MainStep], StepMain(s).value;
    } else {
      LoadRuns(JOIN_ALL, c, mem, back, RCX, SPAWNED, at, syms);
      es, s' := [MainStep], StepMain(s).value;
    }
  }

  lemma AllTests(c: Core, mem: Mem, back: RegFile, s: State, at: int, syms: Syms) returns (es: seq<Event>, s': State)
    requires JoinAllAt(c, s.main, at) && SharedAt(mem, at, s) && Placed3(at, syms) && 5 <= c.k <= 6
    ensures Matched(JoiningAll, c, mem, back, s, es, s', at, syms)
  {
    AllCodeEarly();
    hide JOIN_ALL, LoadAt, StoreAt, ADD_ONE, SHARED;
    hide CoreStep, Load64, JoinLeaves, AllLeaves, Bump, Holds, AluFlags;
    es, s' := [], s;
    if c.k == 5 {
      CompareRuns(JOIN_ALL, c, mem, back, RAX, RCX, syms);
    } else {
      AllTargets();
      AllMeans(s.main.d, s.main.s);
      BranchRuns(JOIN_ALL, c, mem, back, ABE, "ja_d", 16, Holds(ABE, c.flags).value, syms);
      es, s' := [MainStep], StepMain(s).value;
    }
  }

  lemma AllWaits(c: Core, mem: Mem, back: RegFile, s: State, at: int, syms: Syms)
    requires JoinAllAt(c, s.main, at) && SharedAt(mem, at, s) && Placed3(at, syms) && 7 <= c.k <= 13 &&
             KernelKeeps(c.regs, back)
    ensures Matched(JoiningAll, c, mem, back, s, [], s, at, syms)
  {
    AllCodeLate();
    hide JOIN_ALL, LoadAt, StoreAt, ADD_ONE, SHARED;
    hide CoreStep, Load64, Holds, AluFlags;
    if c.k == 7 {
      var f, v := ClearRuns(JOIN_ALL, c, mem, back, RSI, syms);
    } else if c.k == 8 {
      LoadRuns(JOIN_ALL, c, mem, back, RDX, DONE, at, syms);
    } else if c.k == 9 {
      var f, v := ClearRuns(JOIN_ALL, c, mem, back, R10, syms);
    } else if c.k == 10 {
      ImmRuns(JOIN_ALL, c, mem, back, RAX, FUTEX_CALL, syms);
    } else if c.k == 11 {
      CallReturns(JOIN_ALL, c, mem, back, syms);
    } else if c.k == 12 {
      var f := CountRuns(JOIN_ALL, c, mem, back, syms);
    } else {
      var f := TestRuns(JOIN_ALL, c, mem, back, syms);
    }
  }

  lemma AllRetries(c: Core, mem: Mem, back: RegFile, s: State, at: int, syms: Syms) returns (es: seq<Event>, s': State)
    requires JoinAllAt(c, s.main, at) && SharedAt(mem, at, s) && 14 <= c.k <= 16
    ensures Matched(JoiningAll, c, mem, back, s, es, s', at, syms)
  {
    AllCodeLate();
    hide JOIN_ALL, LoadAt, StoreAt, ADD_ONE, SHARED;
    hide CoreStep, Load64, JoinLeaves, AllLeaves, Bump, Holds, AluFlags;
    es, s' := [], s;
    AllTargets();
    if c.k == 14 {
      BranchRuns(JOIN_ALL, c, mem, back, EQ, "ja_d", 16, Holds(EQ, c.flags).value, syms);
      es, s' := [MainStep], StepMain(s).value;
    } else if c.k == 15 {
      JumpRuns(JOIN_ALL, c, mem, back, "ja_w", 1, syms);
    } else {
      LabelPassed(JOIN_ALL, c, mem, back, syms);
    }
  }

  // ---- one item of a worker ----

  lemma SignalItem(c: Core, mem: Mem, back: RegFile, s: State, i: nat, at: int, syms: Syms) returns (es: seq<Event>,
                   s': State)
    requires i < |s.workers| && SignalAt(c, s.workers[i], at) && SharedAt(mem, at, s) && Placed3(at, syms) &&
             c.k < |SIGNAL|
    ensures var r := CoreStep(SIGNAL, c, mem, back, syms);
            && r.Some? && MovesTo(s, es, s') && SharedAt(r.value.1, at, s') && |s'.workers| == |s.workers| &&
                 s'.main == s.main
            && SignalAt(r.value.0, s'.workers[i], at)
            && forall j | 0 <= j < |s.workers| && j != i :: s'.workers[j] == s.workers[j]
  {
    hide CoreStep, Load64, Store64, StepMain, Bump;
    es, s' := [], s;
    if c.k == 0 {
      SharedRuns(SIGNAL, c, mem, back, at, syms);
    } else {
      es := [WorkerStep(i)];
      s' := StepWorker(s, i).value;
      if c.k == 1 {
        LoadRuns(SIGNAL, c, mem, back, RAX, DONE, at, syms);
      } else if c.k == 2 {
        var f := AddRuns(SIGNAL, c, mem, back, syms);
      } else {
        StoreRuns(SIGNAL, c, mem, back, DONE, at, syms);
        SharedStored(mem, at, s, DONE, c.regs[RAX]);
      }
    }
  }

  // ---- runs ----

  /** One move of the system is none or one of the protocol's. */
  lemma MoveRefines(y: System, v: Move, s: State, at: int, syms: Syms) returns (y': System, es: seq<Event>, s': State)
    requires Refines(y, s, at) && Allowed(y, v, at) && Placed3(at, syms)
    ensures Moved(y, v, syms) == Some(y') && MovesTo(s, es, s') && Refines(y', s', at)
  {
    hide CoreStep, SharedAt, StepMain, StepWorker, SpawnAt, JoinAt, JoinAllAt, SignalAt;
    es, s' := [], s;
    match v
    case MainItem(back) =>
      match y.doing {
        case Spawning => es, s' := SpawnItem(y.main, y.mem, back, s, at, syms);
        case Joining => es, s' := JoinItem(y.main, y.mem, back, s, at, syms);
        case JoiningAll => es, s' := JoinAllItem(y.main, y.mem, back, s, at, syms);
        case Ordinary => assert false;
      }
      y' := Moved(y, v, syms).value;
    case WorkerItem(i, back) =>
      es, s' := SignalItem(y.workers[i], y.mem, back, s, i, at, syms);
      y' := Moved(y, v, syms).value;
    case CloneReturns(child) =>
      es, s' := CloneRefines(y, child, s, at, syms);
      y' := Moved(y, v, syms).value;
    case _ =>
      y' := Moved(y, v, syms).value;
      QuietMove(y, v, y', s, at, syms);
  }

  /** Ordinary code, and entering or leaving a statement, is no move of the protocol. */
  lemma QuietMove(y: System, v: Move, y': System, s: State, at: int, syms: Syms)
    requires Refines(y, s, at) && Allowed(y, v, at) && Moved(y, v, syms) == Some(y')
    requires !v.MainItem? && !v.WorkerItem? && !v.CloneReturns?
    ensures Refines(y', s, at)
  {
    hide Load64;
    if v.MainOrdinary? || v.WorkerOrdinary? {
      Load64Same(y.mem, v.mem, at + DONE);
      Load64Same(y.mem, v.mem, at + JOINED);
      Load64Same(y.mem, v.mem, at + SPAWNED);
    }
    if v.WorkerOrdinary? {
      assert SignalAt(y.workers[v.i], s.workers[v.i], at);
    }
  }

  lemma CloneRefines(y: System, child: Core, s: State, at: int, syms: Syms) returns (es: seq<Event>, s': State)
    requires Refines(y, s, at) && Allowed(y, CloneReturns(child), at)
    ensures MovesTo(s, es, s') && Refines(Moved(y, CloneReturns(child), syms).value, s', at)
  {
    hide Load64;
    es, s' := [Clone], Do(s, Clone).value;
    var y' := Moved(y, CloneReturns(child), syms).value;
    forall i | 0 <= i < |s'.workers|
      ensures SignalAt(y'.workers[i], s'.workers[i], at)
    {
      if i < |s.workers| {
        assert SignalAt(y.workers[i], s.workers[i], at);
      }
    }
  }

  function RunSystem(y: System, vs: seq<Move>, syms: Syms): Option<System>
    decreases |vs|
  {
    if vs == [] then Some(y)
    else
      match RunSystem(y, vs[..|vs| - 1], syms) case None => None case Some(z) => Moved(z, vs[|vs| - 1], syms)
  }

  /** Every move of the run is one the threads can make. */
  ghost predicate AllAllowed(y: System, vs: seq<Move>, at: int, syms: Syms)
    decreases |vs|
  {
    vs == [] ||
    (var n := |vs| - 1;
     AllAllowed(y, vs[..n], at, syms) &&
       (RunSystem(y, vs[..n], syms).Some? ==> Allowed(RunSystem(y, vs[..n], syms).value, vs[n], at)))
  }

  /** No thread but the main one, and the three words zero. */
  ghost predicate Initial(y: System, at: int) {
    y.doing.Ordinary? && y.main.k == 0 && y.workers == [] && SharedAt(y.mem, at, START)
  }

  /** Every interleaved run of the instructions is a run of the protocol. */
  lemma {:induction false} SystemRefines(y: System, vs: seq<Move>, at: int, syms: Syms) returns (z: System,
                                         es: seq<Event>)
    requires Initial(y, at) && Placed3(at, syms) && AllAllowed(y, vs, at, syms)
    ensures RunSystem(y, vs, syms) == Some(z)
    ensures |es| <= |vs| && DoAll(START, es).Some? && Refines(z, DoAll(START, es).value, at)
    decreases |vs|
  {
    hide Moved, Allowed, Refines, Do;
    if vs == [] {
      z, es := y, [];
      StartRefines(y, at);
    } else {
      var n := |vs| - 1;
      var w, fs := SystemRefines(y, vs[..n], at, syms);
      var s := DoAll(START, fs).value;
      var z', gs, s' := MoveRefines(w, vs[n], s, at, syms);
      z, es := z', fs + gs;
      if gs == [] {
        assert fs + [] == fs;
      } else {
        assert (fs + gs)[..|fs|] == fs && (fs + gs)[|fs|] == gs[0];
      }
    }
  }

  lemma StartRefines(y: System, at: int)
    requires Initial(y, at)
    ensures Refines(y, START, at)
  {
  }

  // ---- safety of the instructions ----

  /** Workers whose completion store has been executed. */
  function Completed(ws: seq<Core>): nat {
    if ws == [] then 0 else Completed(ws[..|ws| - 1]) + (if ws[|ws| - 1].k == 4 then 1 else 0)
  }

  lemma {:induction false} CompletedAre(cs: seq<Core>, ws: seq<Worker>, at: int)
    requires |cs| == |ws| && forall i | 0 <= i < |ws| :: SignalAt(cs[i], ws[i], at)
    ensures Completed(cs) == Signals(ws)
  {
    if ws != [] {
      CompletedAre(cs[..|cs| - 1], ws[..|ws| - 1], at);
    }
  }

  lemma {:induction false} FewEvents(es: seq<Event>)
    requires DoAll(START, es).Some?
    ensures var s := DoAll(START, es).value; |s.workers| + s.joins <= |es|
    decreases |es|
  {
    if es != [] {
      hide JoinLeaves, AllLeaves;
      FewEvents(es[..|es| - 1]);
    }
  }

  /** In every interleaving of the instructions, fewer than 2^63 of them: the counter word never exceeds the
      completion stores executed; when `join_all` is about to leave by its test, every spawned worker has executed
      its store; and when a `join` is, more workers have than joins have finished. */
  lemma SystemSafe(y: System, vs: seq<Move>, at: int, syms: Syms) returns (z: System)
    requires Initial(y, at) && Placed3(at, syms) && AllAllowed(y, vs, at, syms) && |vs| < TWO63
    ensures RunSystem(y, vs, syms) == Some(z)
    ensures Load64(z.mem, at + DONE) <= Completed(z.workers)
    ensures z.doing.JoiningAll? && z.main.k == 6 && Holds(ABE, z.main.flags) == Some(true) ==>
              forall i | 0 <= i < |z.workers| :: z.workers[i].k == 4
    ensures z.doing.Joining? && ((z.main.k == 6 && Holds(GT, z.main.flags) == Some(true)) ||
                                 (z.main.k == 8 && Holds(BELOW, z.main.flags) == Some(true))) ==>
              Load64(z.mem, at + JOINED) + 1 <= Completed(z.workers)
  {
    hide RunSystem, DoAll, Signals, Completed, Holds, AluFlags, Load64, AllAllowed, Initial;
    var z', es := SystemRefines(y, vs, at, syms);
    z := z';
    var s := DoAll(START, es).value;
    FewEvents(es);
    CompletedAre(z.workers, s.workers, at);
    DoneNeverAhead(es);
    RunKeepsInv(es);
    if z.doing.JoiningAll? && z.main.k == 6 && Holds(ABE, z.main.flags) == Some(true) {
      AllMeans(s.main.d, s.main.s);
      JoinAllSafe(es);
      forall i | 0 <= i < |z.workers|
        ensures z.workers[i].k == 4
      {
        assert SignalAt(z.workers[i], s.workers[i], at);
      }
    }
    if z.doing.Joining? && ((z.main.k == 6 && Holds(GT, z.main.flags) == Some(true)) ||
                            (z.main.k == 8 && Holds(BELOW, z.main.flags) == Some(true))) {
      TestsMean(s.main.d, s.main.j);
      JoinSafe(es);
    }
  }
}
