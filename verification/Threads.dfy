/** Thread completion counters: the protocol of spawn, signal, join and join_all over three shared words,
    with the load, the add and the store of every increment as separate steps. */
module Threads {
  import opened Wrappers
  import opened Words
  import opened Memory
  import opened Regs
  import opened Isa
  import opened Assembly
  import opened Codegen
  import opened Semantics
  import opened SourceLanguage
  import opened StmtProofs

  // ---- the emitted code around the shared words ----

  const FUTEX := "__data___thr_futex"
  const DONE: int := 0
  const JOINED: int := 8
  const SPAWNED: int := 16

  /** Load a counter, add one, store it back: three instructions after the address is in rdi. */
  function Increment(off: int): seq<Item> {
    [Ins(LoadI(W64, RAX, MemRef(RDI, off, NoIndex))), Ins(AluImm(ADD, RAX, 1)),
     Ins(StoreI(W64, MemRef(RDI, off, NoIndex), RAX))]
  }

  /** `join` leaves its loop: done > joined signed, or joined < done unsigned. */
  predicate JoinLeaves(d: Word, j: Word) {
    || Holds(CondCode("gt").value, AluFlags(CMP, d, j)) == Some(true)
    || Holds(CondCode("below").value, AluFlags(CMP, j, d)) == Some(true)
  }

  /** `join_all` leaves its loop: done >= spawned by the carry flag. */
  predicate AllLeaves(d: Word, s: Word) {
    Holds(CondCode("abe").value, AluFlags(CMP, d, s)) == Some(true)
  }

  lemma LeavesMeaning(d: Word, j: Word)
    ensures JoinLeaves(d, j) <==> Signed(d) > Signed(j) || j < d
    ensures AllLeaves(d, j) <==> d >= j
  {
    ConditionNames();
    CompareMeaning(15, d, j);
    CompareMeaning(2, j, d);
    CompareMeaning(3, d, j);
  }

  /** The three steps of an increment, one instruction each: rax takes the shared word, then one more,
      then only the shared word changes. */
  lemma IncrementSteps(off: int, m: Machine)
    ensures var at := Wrap(m.regs[RDI] as int + off);
            && Step(Increment(off)[0], m, map[]) == Some(m.Set(RAX, Load64(m.mem, at)))
            && Step(Increment(off)[1], m, map[]).Some?
            && Step(Increment(off)[1], m, map[]).value.regs == m.regs[RAX := Wrap(m.regs[RAX] as int + 1)]
            && Step(Increment(off)[1], m, map[]).value.mem == m.mem
            && Step(Increment(off)[2], m, map[]) == Some(m.(mem := Store64(m.mem, at, m.regs[RAX])))
  {
    hide AluFlags, Load64, Store64, LoadW, Store, AluResult;
    var at := Wrap(m.regs[RDI] as int + off);
    WordAccess(m.mem, at, m.regs[RAX]);
    AddOne(m.regs[RAX]);
  }

  lemma WordAccess(m: Mem, at: int, v: Word)
    ensures LoadW(m, at, W64) == Load64(m, at) && Store(m, at, 8, v) == Store64(m, at, v)
  {
  }

  lemma AddOne(v: Word)
    ensures AluResult(ADD, v, Wrap(1)) == Wrap(v as int + 1)
  {
  }

  // ---- the protocol ----

  /** A worker: running its function, holding the value it read, holding the value it will store, done. */
  datatype Worker = Running | Read(v: Word) | Ready(v: Word) | Signalled

  /** Where the main thread is. `tries` is the loop counter in r14. */
  datatype Main =
    | Free
    | SpawnRead | SpawnAdd(v: Word) | SpawnStore(v: Word)
    | JoinReadDone(tries: nat) | JoinReadJoined(tries: nat, d: Word)
    | JoinDecide(tries: nat, d: Word, j: Word) | JoinWait(tries: nat)
    | BumpRead(byTest: bool) | BumpAdd(byTest: bool, v: Word) | BumpStore(byTest: bool, v: Word)
    | AllReadDone(tries: nat) | AllReadSpawned(tries: nat, d: Word)
    | AllDecide(tries: nat, d: Word, s: Word) | AllWait(tries: nat)

  /** The shared words, the threads, and two history counters: joins finished, and those that left by test. */
  datatype State = State(done: Word, joined: Word, spawned: Word, main: Main, workers: seq<Worker>, joins: nat,
                         tested: nat)

  const START: State := State(0, 0, 0, Free, [], 0, 0)
  const JOIN_TRIES: nat := 200000
  const ALL_TRIES: nat := 500000

  /** Who moves next. `Clone` is the clone call; only a free main thread spawns or joins. */
  datatype Event = Clone | StartJoin | StartJoinAll | MainStep | WorkerStep(i: nat)

  function Bump(v: Word): Word {
    AluResult(ADD, v, 1)
  }

  function StepMain(s: State): Option<State> {
    match s.main
    case Free => None
    case SpawnRead => Some(s.(main := SpawnAdd(s.spawned)))
    case SpawnAdd(v) => Some(s.(main := SpawnStore(Bump(v))))
    case SpawnStore(v) => Some(s.(spawned := v, main := Free))
    case JoinReadDone(n) => Some(s.(main := JoinReadJoined(n, s.done)))
    case JoinReadJoined(n, d) => Some(s.(main := JoinDecide(n, d, s.joined)))
    case JoinDecide(n, d, j) => Some(s.(main := if JoinLeaves(d, j) then BumpRead(true) else JoinWait(n)))
    case JoinWait(n) => Some(s.(main := if n <= 1 then BumpRead(false) else JoinReadDone(n - 1)))
    case BumpRead(b) => Some(s.(main := BumpAdd(b, s.joined)))
    case BumpAdd(b, v) => Some(s.(main := BumpStore(b, Bump(v))))
    case BumpStore(b, v) =>
      Some(s.(joined := v, main := Free, joins := s.joins + 1, tested := if b then s.tested + 1 else s.tested))
    case AllReadDone(n) => Some(s.(main := AllReadSpawned(n, s.done)))
    case AllReadSpawned(n, d) => Some(s.(main := AllDecide(n, d, s.spawned)))
    case AllDecide(n, d, k) => Some(s.(main := if AllLeaves(d, k) then Free else AllWait(n)))
    case AllWait(n) => Some(s.(main := if n <= 1 then Free else AllReadDone(n - 1)))
  }

  function StepWorker(s: State, i: nat): Option<State>
    requires i < |s.workers|
  {
    match s.workers[i]
    case Running => Some(s.(workers := s.workers[i := Read(s.done)]))
    case Read(v) => Some(s.(workers := s.workers[i := Ready(Bump(v))]))
    case Ready(v) => Some(s.(done := v, workers := s.workers[i := Signalled]))
    case Signalled => None
  }

  function Do(s: State, e: Event): Option<State> {
    match e
    case Clone => if s.main.Free? then Some(s.(main := SpawnRead, workers := s.workers + [Running])) else None
    case StartJoin => if s.main.Free? then Some(s.(main := JoinReadDone(JOIN_TRIES))) else None
    case StartJoinAll => if s.main.Free? then Some(s.(main := AllReadDone(ALL_TRIES))) else None
    case MainStep => StepMain(s)
    case WorkerStep(i) => if i < |s.workers| then StepWorker(s, i) else None
  }

  function DoAll(s: State, es: seq<Event>): Option<State>
    decreases |es|
  {
    if es == [] then Some(s)
    else (match DoAll(s, es[..|es| - 1]) case None => None case Some(t) => Do(t, es[|es| - 1]))
  }

  /** Completion stores performed so far. */
  function Signals(ws: seq<Worker>): nat {
    if ws == [] then 0 else Signals(ws[..|ws| - 1]) + (if ws[|ws| - 1].Signalled? then 1 else 0)
  }

  lemma {:induction false} SignalsUpdate(ws: seq<Worker>, i: nat, w: Worker)
    requires i < |ws|
    ensures Signals(ws[i := w]) == Signals(ws) + (if w.Signalled? then 1 else 0) - (if ws[i].Signalled? then 1 else 0)
  {
    var n := |ws| - 1;
    if i == n {
      assert ws[i := w][..n] == ws[..n];
    } else {
      SignalsUpdate(ws[..n], i, w);
      assert ws[i := w][..n] == ws[..n][i := w];
    }
  }

  lemma {:induction false} SignalsBound(ws: seq<Worker>)
    ensures Signals(ws) <= |ws|
    ensures Signals(ws) == |ws| <==> forall i | 0 <= i < |ws| :: ws[i].Signalled?
  {
    if ws != [] {
      SignalsBound(ws[..|ws| - 1]);
      assert ws == ws[..|ws| - 1] + [ws[|ws| - 1]];
    }
  }

  // ---- the code refines the protocol ----

  /** The three shared words in memory. */
  ghost predicate SharedAt(m: Mem, at: int, s: State) {
    Load64(m, at + DONE) == s.done && Load64(m, at + JOINED) == s.joined && Load64(m, at + SPAWNED) == s.spawned
  }

  /** A worker's registers after k instructions of its increment. */
  predicate WorkerAt(w: Worker, k: nat, regs: RegFile) {
    match w
    case Running => k == 0
    case Read(v) => k == 1 && regs[RAX] == v
    case Ready(v) => k == 2 && regs[RAX] == v
    case Signalled => k == 3
  }

  /** Each instruction of a signal is one step of the worker: the shared words in memory follow the state. */
  lemma SignalRefines(s: State, i: nat, k: nat, at: int, m: Machine)
    requires i < |s.workers| && k < 3 && WorkerAt(s.workers[i], k, m.regs)
    requires m.regs[RDI] == at && 0 <= at && at + 24 <= TWO64 && SharedAt(m.mem, at, s)
    ensures StepWorker(s, i).Some? && Step(Increment(DONE)[k], m, map[]).Some?
    ensures var s', t := StepWorker(s, i).value, Step(Increment(DONE)[k], m, map[]).value;
            SharedAt(t.mem, at, s') && WorkerAt(s'.workers[i], k + 1, t.regs) && t.regs[RDI] == at
  {
    hide Load64, Store64, Step, Increment, AluResult;
    IncrementSteps(DONE, m);
    AddOne(m.regs[RAX]);
    LoadStore64(m.mem, at, m.regs[RAX]);
    Load64Other(m.mem, at, m.regs[RAX], at + JOINED);
    Load64Other(m.mem, at, m.regs[RAX], at + SPAWNED);
  }

  /** Where the main thread is in one of its increments. */
  predicate MainAt(p: Main, off: int, k: nat, regs: RegFile) {
    match p
    case SpawnRead => off == SPAWNED && k == 0
    case SpawnAdd(v) => off == SPAWNED && k == 1 && regs[RAX] == v
    case SpawnStore(v) => off == SPAWNED && k == 2 && regs[RAX] == v
    case BumpRead(_) => off == JOINED && k == 0
    case BumpAdd(_, v) => off == JOINED && k == 1 && regs[RAX] == v
    case BumpStore(_, v) => off == JOINED && k == 2 && regs[RAX] == v
    case Free => k == 3
    case _ => false
  }

  /** The same for the spawn counter and the join counter of the main thread. */
  lemma BookkeepingRefines(s: State, off: int, k: nat, at: int, m: Machine)
    requires k < 3 && MainAt(s.main, off, k, m.regs) && (off == JOINED || off == SPAWNED)
    requires m.regs[RDI] == at && 0 <= at && at + 24 <= TWO64 && SharedAt(m.mem, at, s)
    ensures StepMain(s).Some? && Step(Increment(off)[k], m, map[]).Some?
    ensures var s', t := StepMain(s).value, Step(Increment(off)[k], m, map[]).value;
            SharedAt(t.mem, at, s') && MainAt(s'.main, off, k + 1, t.regs) && t.regs[RDI] == at
  {
    hide Load64, Store64, Step, Increment, AluResult, JoinLeaves, AllLeaves;
    IncrementSteps(off, m);
    AddOne(m.regs[RAX]);
    LoadStore64(m.mem, at + off, m.regs[RAX]);
    Load64Other(m.mem, at + off, m.regs[RAX], at + DONE);
    if off == JOINED {
      Load64Other(m.mem, at + off, m.regs[RAX], at + SPAWNED);
    } else {
      Load64Other(m.mem, at + off, m.regs[RAX], at + JOINED);
    }
  }

  // ---- the invariant ----

  predicate WorkerOk(w: Worker, c: nat) {
    match w
    case Read(v) => v <= c
    case Ready(v) => v <= c + 1
    case _ => true
  }

  predicate MainOk(s: State, c: nat) {
    match s.main
    case SpawnAdd(v) => v == s.spawned
    case SpawnStore(v) => v == s.spawned + 1
    case JoinReadJoined(_, d) => d <= c
    case JoinDecide(_, d, j) => d <= c && j == s.joined
    case BumpRead(b) => b ==> s.joins < c
    case BumpAdd(b, v) => v == s.joined && (b ==> s.joins < c)
    case BumpStore(b, v) => v == s.joined + 1 && (b ==> s.joins < c)
    case AllReadSpawned(_, d) => d <= c
    case AllDecide(_, d, k) => d <= c && k == s.spawned
    case _ => true
  }

  predicate Spawning(m: Main) {
    m.SpawnRead? || m.SpawnAdd? || m.SpawnStore?
  }

  /** The counter never runs ahead of the completion stores, nor do values already read; the other two
      counters are exact because only the main thread writes them. */
  ghost predicate Inv(s: State) {
    var c := Signals(s.workers);
    && s.done <= c
    && (forall i | 0 <= i < |s.workers| :: WorkerOk(s.workers[i], c))
    && s.spawned + (if Spawning(s.main) then 1 else 0) == |s.workers|
    && s.joined == s.joins && s.tested <= s.joins && s.tested <= c
    && MainOk(s, c)
  }

  /** Fewer than 2^63 threads and joins. */
  predicate Bounded(s: State) {
    |s.workers| < TWO63 && s.joins < TWO63
  }

  lemma WorkerKeepsInv(s: State, i: nat)
    requires Inv(s) && Bounded(s) && i < |s.workers| && StepWorker(s, i).Some?
    ensures Inv(StepWorker(s, i).value)
  {
    hide Holds, AluFlags, JoinLeaves, AllLeaves;
    var t := StepWorker(s, i).value;
    var c := Signals(s.workers);
    SignalsBound(s.workers);
    SignalsUpdate(s.workers, i, t.workers[i]);
    assert WorkerOk(s.workers[i], c);
    hide Signals;
    forall j | 0 <= j < |t.workers|
      ensures WorkerOk(t.workers[j], Signals(t.workers))
    {
      assert WorkerOk(s.workers[j], c);
    }
  }

  lemma MainKeepsInv(s: State)
    requires Inv(s) && Bounded(s) && StepMain(s).Some?
    ensures Inv(StepMain(s).value)
  {
    hide Holds, AluFlags, JoinLeaves, AllLeaves, Signals, WorkerOk;
    SignalsBound(s.workers);
    MainLeavesWorkers(s);
    if s.main.JoinDecide? {
      LeavesMeaning(s.main.d, s.main.j);
    }
  }

  lemma MainLeavesWorkers(s: State)
    requires StepMain(s).Some?
    ensures StepMain(s).value.workers == s.workers && StepMain(s).value.done == s.done
  {
    hide JoinLeaves, AllLeaves;
  }

  lemma StepKeepsInv(s: State, e: Event)
    requires Inv(s) && Bounded(s) && Do(s, e).Some?
    ensures Inv(Do(s, e).value)
  {
    hide StepMain, StepWorker, Signals;
    if e.MainStep? {
      MainKeepsInv(s);
    } else if e.WorkerStep? {
      WorkerKeepsInv(s, e.i);
    } else if e.Clone? {
      SignalsClone(s.workers);
      var t := Do(s, e).value;
      forall j | 0 <= j < |t.workers|
        ensures WorkerOk(t.workers[j], Signals(t.workers))
      {
        assert j < |s.workers| ==> WorkerOk(s.workers[j], Signals(s.workers));
      }
    }
  }

  lemma SignalsClone(ws: seq<Worker>)
    ensures Signals(ws + [Running]) == Signals(ws)
  {
    assert (ws + [Running])[..|ws|] == ws;
  }

  lemma StepGrows(s: State, e: Event)
    requires Do(s, e).Some? && Bounded(Do(s, e).value)
    ensures Bounded(s)
  {
    hide Holds, AluFlags, JoinLeaves, AllLeaves;
  }

  /** Every interleaving of the main thread and any number of workers keeps the invariant. */
  lemma {:induction false} RunKeepsInv(es: seq<Event>)
    requires DoAll(START, es).Some? && Bounded(DoAll(START, es).value)
    ensures Inv(DoAll(START, es).value)
    decreases |es|
  {
    hide Do, Inv, Bounded;
    if es == [] {
      StartInv();
    } else {
      var t := DoAll(START, es[..|es| - 1]).value;
      StepGrows(t, es[|es| - 1]);
      RunKeepsInv(es[..|es| - 1]);
      StepKeepsInv(t, es[|es| - 1]);
    }
  }

  lemma StartInv()
    ensures Inv(START)
  {
  }

  // ---- safety ----

  /** `done` never exceeds the number of completion stores performed. */
  lemma DoneNeverAhead(es: seq<Event>)
    requires DoAll(START, es).Some? && Bounded(DoAll(START, es).value)
    ensures DoAll(START, es).value.done <= Signals(DoAll(START, es).value.workers)
  {
    RunKeepsInv(es);
  }

  /** A `join_all` that leaves by its counter test finds every spawned worker signalled. */
  lemma JoinAllSafe(es: seq<Event>)
    requires DoAll(START, es).Some? && Bounded(DoAll(START, es).value)
    requires var s := DoAll(START, es).value; s.main.AllDecide? && AllLeaves(s.main.d, s.main.s)
    ensures var s := DoAll(START, es).value;
            && s.spawned == |s.workers| && forall i | 0 <= i < |s.workers| :: s.workers[i].Signalled?
  {
    hide DoAll, AllLeaves, Signals;
    var s := DoAll(START, es).value;
    RunKeepsInv(es);
    LeavesMeaning(s.main.d, s.main.s);
    SignalsBound(s.workers);
  }

  /** The k-th `join` that leaves by its counter test finds at least k workers signalled. */
  lemma JoinSafe(es: seq<Event>)
    requires DoAll(START, es).Some? && Bounded(DoAll(START, es).value)
    requires var s := DoAll(START, es).value; s.main.JoinDecide? && JoinLeaves(s.main.d, s.main.j)
    ensures var s := DoAll(START, es).value;
            s.tested + 1 <= s.joins + 1 <= Signals(s.workers)
  {
    hide DoAll, JoinLeaves, Signals;
    var s := DoAll(START, es).value;
    RunKeepsInv(es);
    LeavesMeaning(s.main.d, s.main.j);
    SignalsBound(s.workers);
  }

  // ---- lost updates ----

  /** Event j is the load by which worker i starts its increment. */
  predicate Loads(es: seq<Event>, j: nat, i: nat) {
    j < |es| && es[j] == WorkerStep(i) && var s := DoAll(START, es[..j]);
    s.Some? && i < |s.value.workers| && s.value.workers[i].Running?
  }

  /** Event k is the store by which worker i completes. */
  predicate Stores(es: seq<Event>, k: nat, i: nat) {
    k < |es| && es[k] == WorkerStep(i) && var s := DoAll(START, es[..k]);
    s.Some? && i < |s.value.workers| && s.value.workers[i].Ready?
  }

  /** Another worker has stored since worker i's load. */
  ghost predicate Disturbed(es: seq<Event>, i: nat) {
    exists j: nat, l: nat, o: nat | j < l && o != i :: Loads(es, j, i) && Stores(es, l, o)
  }

  /** Some worker's window from load to store contains another worker's store. */
  ghost predicate Lost(es: seq<Event>) {
    exists j: nat, l: nat, k: nat, i: nat, o: nat | j < l < k && o != i ::
      Loads(es, j, i) && Stores(es, l, o) && Stores(es, k, i)
  }

  /** The value a worker read, while it still holds it. */
  predicate Holding(w: Worker, v: int) {
    (w.Read? && w.v == v) || (w.Ready? && w.v == v + 1)
  }

  /** Loads so far, and what the workers that made them hold. */
  ghost predicate Tracked(es: seq<Event>, s: State) {
    && (forall j: nat, i: nat | Loads(es, j, i) :: i < |s.workers| && !s.workers[i].Running?)
    && (forall i | 0 <= i < |s.workers| && (s.workers[i].Read? || s.workers[i].Ready?) :: HasLoaded(es, s, i))
  }

  ghost predicate HasLoaded(es: seq<Event>, s: State, i: nat)
    requires i < |s.workers|
  {
    && (exists j: nat :: Loads(es, j, i))
    && exists v :: Holding(s.workers[i], v) && (if Disturbed(es, i) then v < Signals(s.workers) else v == s.done)
  }

  lemma EventsBefore(es: seq<Event>, e: Event, j: nat, i: nat)
    requires j < |es|
    ensures Loads(es + [e], j, i) == Loads(es, j, i) && Stores(es + [e], j, i) == Stores(es, j, i)
  {
    hide DoAll;
    assert (es + [e])[..j] == es[..j] && (es + [e])[j] == es[j];
  }

  lemma LastEvent(es: seq<Event>, e: Event, s: State, i: nat)
    requires DoAll(START, es) == Some(s)
    ensures Loads(es + [e], |es|, i) == (e == WorkerStep(i) && i < |s.workers| && s.workers[i].Running?)
    ensures Stores(es + [e], |es|, i) == (e == WorkerStep(i) && i < |s.workers| && s.workers[i].Ready?)
  {
    hide DoAll;
    assert (es + [e])[..|es|] == es && (es + [e])[|es|] == e;
  }

  /** A worker is disturbed by what disturbed it before, or by the last event if that is another's store. */
  lemma DisturbedStep(es: seq<Event>, e: Event, s: State, i: nat)
    requires DoAll(START, es) == Some(s)
    ensures Disturbed(es + [e], i) <==>
            Disturbed(es, i) ||
            ((exists j: nat :: Loads(es, j, i)) && exists o: nat | o != i :: Stores(es + [e], |es|, o))
  {
    hide Loads, Stores, DoAll;
    var fs := es + [e];
    forall j: nat, k: nat | j < |es|
      ensures Loads(fs, j, k) == Loads(es, j, k) && Stores(fs, j, k) == Stores(es, j, k)
    {
      EventsBefore(es, e, j, k);
    }
    EventIndex(es);
    EventIndex(fs);
  }

  lemma EventIndex(es: seq<Event>)
    ensures forall j: nat, i: nat | Loads(es, j, i) || Stores(es, j, i) :: j < |es|
  {
    hide DoAll;
  }

  /** An update is lost if one was lost before, or the last event is the store of a disturbed worker. */
  lemma LostStep(es: seq<Event>, e: Event, s: State)
    requires DoAll(START, es) == Some(s)
    ensures Lost(es + [e]) <==> Lost(es) || exists i: nat | Stores(es + [e], |es|, i) :: Disturbed(es, i)
  {
    hide Loads, Stores, DoAll;
    var fs := es + [e];
    forall j: nat, k: nat | j < |es|
      ensures Loads(fs, j, k) == Loads(es, j, k) && Stores(fs, j, k) == Stores(es, j, k)
    {
      EventsBefore(es, e, j, k);
    }
    EventIndex(es);
    EventIndex(fs);
    if Lost(fs) && !Lost(es) {
      var j: nat, l: nat, k: nat, i: nat, o: nat :| j < l < k && o != i && Loads(fs, j, i) && Stores(fs, l, o) &&
        Stores(fs, k, i);
      assert k == |es|;
      assert Loads(es, j, i) && Stores(es, l, o);
      assert Disturbed(es, i);
    }
    if i: nat :| Stores(fs, |es|, i) && Disturbed(es, i) {
      var j: nat, l: nat, o: nat :| j < l && o != i && Loads(es, j, i) && Stores(es, l, o);
      assert Loads(fs, j, i) && Stores(fs, l, o) && Stores(fs, |es|, i);
    }
  }

  /** No worker made a load without having left its start, and a load is the last event only of its worker. */
  lemma LoadsStep(es: seq<Event>, e: Event, s: State, t: State)
    requires DoAll(START, es) == Some(s) && Do(s, e) == Some(t)
    requires forall j: nat, i: nat | Loads(es, j, i) :: i < |s.workers| && !s.workers[i].Running?
    ensures forall j: nat, i: nat | Loads(es + [e], j, i) :: i < |t.workers| && !t.workers[i].Running?
  {
    hide Loads, DoAll, StepMain, JoinLeaves, AllLeaves;
    assert forall i | 0 <= i < |s.workers| && !s.workers[i].Running? :: i < |t.workers| && !t.workers[i].Running? by {
      StepMainWorkers(s);
    }
    forall j: nat, i: nat | Loads(es + [e], j, i)
      ensures i < |t.workers| && !t.workers[i].Running?
    {
      EventIndex(es + [e]);
      if j < |es| {
        EventsBefore(es, e, j, i);
      } else {
        LastEvent(es, e, s, i);
      }
    }
  }

  lemma StepMainWorkers(s: State)
    ensures StepMain(s).Some? ==> StepMain(s).value.workers == s.workers && StepMain(s).value.done == s.done
  {
    hide JoinLeaves, AllLeaves;
  }

  /** A worker that did not move still holds what it read, unless another's store has disturbed it. */
  lemma StillHolding(es: seq<Event>, e: Event, s: State, t: State, i: nat)
    requires DoAll(START, es) == Some(s) && Do(s, e) == Some(t) && Inv(s) && Bounded(s)
    requires i < |s.workers| && i < |t.workers| && t.workers[i] == s.workers[i] && e != WorkerStep(i)
    requires HasLoaded(es, s, i)
    ensures HasLoaded(es + [e], t, i)
  {
    hide Loads, Stores, DoAll, Disturbed, StepMain, JoinLeaves, AllLeaves, Signals, Inv;
    var j: nat :| Loads(es, j, i);
    EventIndex(es);
    EventsBefore(es, e, j, i);
    assert Loads(es + [e], j, i);
    var v :| Holding(s.workers[i], v) && (if Disturbed(es, i) then v < Signals(s.workers) else v == s.done);
    DisturbedStep(es, e, s, i);
    HeldBound(s, i, v);
    if e.WorkerStep? {
      LastEvent(es, e, s, e.i);
      SignalsUpdate(s.workers, e.i, t.workers[e.i]);
      if !s.workers[e.i].Ready? {
        NobodyStores(es, e, s);
      }
    } else {
      StepMainWorkers(s);
      if e.Clone? { SignalsClone(s.workers); }
      NobodyStores(es, e, s);
    }
    assert Holding(t.workers[i], v);
  }

  lemma NobodyStores(es: seq<Event>, e: Event, s: State)
    requires DoAll(START, es) == Some(s) && (e.WorkerStep? && e.i < |s.workers| ==> !s.workers[e.i].Ready?)
    ensures forall o: nat :: !Stores(es + [e], |es|, o)
  {
    hide Stores, DoAll;
    forall o: nat
      ensures !Stores(es + [e], |es|, o)
    {
      LastEvent(es, e, s, o);
    }
  }

  lemma HeldBound(s: State, i: nat, v: int)
    requires Inv(s) && Bounded(s) && i < |s.workers| && Holding(s.workers[i], v)
    ensures v <= Signals(s.workers) && s.done <= Signals(s.workers) < TWO63
  {
    SignalsBound(s.workers);
    assert WorkerOk(s.workers[i], Signals(s.workers));
  }

  /** The worker that moves: a load reads the current counter, the addition changes nothing shared. */
  lemma MovedHolding(es: seq<Event>, i: nat, s: State, t: State)
    requires DoAll(START, es) == Some(s) && Do(s, WorkerStep(i)) == Some(t) && Inv(s) && Bounded(s)
    requires i < |s.workers| && (s.workers[i].Running? || s.workers[i].Read?)
    requires s.workers[i].Read? ==> HasLoaded(es, s, i)
    requires s.workers[i].Running? ==> forall j: nat :: !Loads(es, j, i)
    ensures HasLoaded(es + [WorkerStep(i)], t, i)
  {
    hide Loads, Stores, DoAll, Disturbed, Signals, Inv;
    var e := WorkerStep(i);
    NobodyStores(es, e, s);
    DisturbedStep(es, e, s, i);
    SignalsUpdate(s.workers, i, t.workers[i]);
    if s.workers[i].Running? {
      LastEvent(es, e, s, i);
      assert Loads(es + [e], |es|, i);
      assert !Disturbed(es, i) by { DisturbedLoaded(es, i); }
      assert Holding(t.workers[i], s.done);
    } else {
      var j: nat :| Loads(es, j, i);
      EventIndex(es);
      EventsBefore(es, e, j, i);
      assert Loads(es + [e], j, i);
      var v :| Holding(s.workers[i], v) && (if Disturbed(es, i) then v < Signals(s.workers) else v == s.done);
      HeldBound(s, i, v);
      BumpIs(s.workers[i].v);
      assert Holding(t.workers[i], v);
    }
  }

  lemma BumpIs(v: Word)
    requires v < TWO64 - 1
    ensures Bump(v) == v + 1
  {
  }

  lemma DisturbedLoaded(es: seq<Event>, i: nat)
    ensures Disturbed(es, i) ==> exists j: nat :: Loads(es, j, i)
  {
    hide Loads, Stores;
  }

  lemma TrackedStep(es: seq<Event>, e: Event, s: State, t: State)
    requires DoAll(START, es) == Some(s) && Do(s, e) == Some(t) && Inv(s) && Bounded(s) && Tracked(es, s)
    ensures Tracked(es + [e], t)
  {
    hide Loads, Stores, DoAll, HasLoaded, Inv, Bounded, StepMain, JoinLeaves, AllLeaves;
    LoadsStep(es, e, s, t);
    StepMainWorkers(s);
    forall i | 0 <= i < |t.workers| && (t.workers[i].Read? || t.workers[i].Ready?)
      ensures HasLoaded(es + [e], t, i)
    {
      if e == WorkerStep(i) {
        MovedHolding(es, i, s, t);
      } else {
        StillHolding(es, e, s, t, i);
      }
    }
  }

  /** The counter equals the completion stores performed after the event exactly if it did before and the
      event is not the store of a disturbed worker. */
  lemma ExactStep(es: seq<Event>, e: Event, s: State, t: State)
    requires DoAll(START, es) == Some(s) && Do(s, e) == Some(t) && Inv(s) && Bounded(s) && Tracked(es, s)
    requires s.done == Signals(s.workers) <==> !Lost(es)
    ensures t.done == Signals(t.workers) <==> !Lost(es + [e])
  {
    hide Loads, Stores, DoAll, Disturbed, Lost, Inv, Bounded, StepMain, JoinLeaves, AllLeaves, Signals;
    LostStep(es, e, s);
    StepMainWorkers(s);
    if e.WorkerStep? {
      LastEvent(es, e, s, e.i);
      SignalsUpdate(s.workers, e.i, t.workers[e.i]);
      if s.workers[e.i].Ready? {
        StoredBy(es, e.i, s);
        assert HasLoaded(es, s, e.i);
        var v :| Holding(s.workers[e.i], v) && (if Disturbed(es, e.i) then v < Signals(s.workers) else v == s.done);
        HeldBound(s, e.i, v);
      } else {
        NobodyStores(es, e, s);
      }
    } else {
      if e.Clone? { SignalsClone(s.workers); }
      NobodyStores(es, e, s);
    }
  }

  lemma StoredBy(es: seq<Event>, i: nat, s: State)
    requires DoAll(START, es) == Some(s)
    ensures forall o: nat | Stores(es + [WorkerStep(i)], |es|, o) :: o == i
  {
    hide Stores, DoAll;
    forall o: nat | Stores(es + [WorkerStep(i)], |es|, o)
      ensures o == i
    {
      LastEvent(es, WorkerStep(i), s, o);
    }
  }

  /** In every interleaving the counter equals the completion stores performed exactly when no worker's
      window, from its load to its store, contains another worker's store. */
  lemma {:induction false} DoneExactIff(es: seq<Event>)
    requires DoAll(START, es).Some? && Bounded(DoAll(START, es).value)
    ensures DoAll(START, es).value.done == Signals(DoAll(START, es).value.workers) <==> !Lost(es)
    ensures Tracked(es, DoAll(START, es).value)
    decreases |es|
  {
    if es == [] {
    } else {
      hide Do, Inv, Bounded, Lost, Tracked;
      var n := |es| - 1;
      var s := DoAll(START, es[..n]).value;
      StepGrows(s, es[n]);
      DoneExactIff(es[..n]);
      RunKeepsInv(es[..n]);
      assert es == es[..n] + [es[n]];
      TrackedStep(es[..n], es[n], s, DoAll(START, es).value);
      ExactStep(es[..n], es[n], s, DoAll(START, es).value);
    }
  }

  /** After any run, a step lowers the counter exactly when it is the store of a worker that holds less than is there;
      and that happens only to a worker whose window contains another worker's store. */
  lemma LowersIff(es: seq<Event>, e: Event)
    requires DoAll(START, es).Some? && Bounded(DoAll(START, es).value) && Do(DoAll(START, es).value, e).Some?
    ensures var s := DoAll(START, es).value;
            var lower := Do(s, e).value.done < s.done;
            && (lower <==> e.WorkerStep? && s.workers[e.i].Ready? && s.workers[e.i].v < s.done)
            && (lower ==> Disturbed(es, e.i))
  {
    hide StepMain, JoinLeaves, AllLeaves, Disturbed;
    StepMainWorkers(DoAll(START, es).value);
    DoneExactIff(es);
  }

  lemma {:induction false} DoAllAppend(s: State, a: seq<Event>, b: seq<Event>)
    ensures DoAll(s, a + b) == (match DoAll(s, a) case None => None case Some(t) => DoAll(t, b))
    decreases |b|
  {
    hide Do;
    if b == [] {
      assert a + b == a;
    } else {
      assert (a + b)[..|a + b| - 1] == a + b[..|b| - 1];
      DoAllAppend(s, a, b[..|b| - 1]);
    }
  }

  lemma DoOne(s: State, e: Event)
    ensures DoAll(s, [e]) == Do(s, e)
  {
    hide Do;
    assert [e][..0] == [];
    assert DoAll(s, []) == Some(s);
  }

  lemma DoThree(s: State, a: Event, b: Event, c: Event)
    requires Do(s, a).Some? && Do(Do(s, a).value, b).Some?
    ensures DoAll(s, [a, b, c]) == Do(Do(Do(s, a).value, b).value, c)
  {
    hide Do;
    DoOne(s, a);
    DoAllAppend(s, [a], [b]);
    DoOne(Do(s, a).value, b);
    DoAllAppend(s, [a, b], [c]);
    DoOne(Do(Do(s, a).value, b).value, c);
    assert [a] + [b] == [a, b] && [a, b] + [c] == [a, b, c];
  }

  /** A spawn without interference. */
  lemma SpawnRuns(s: State) returns (es: seq<Event>)
    requires s.main.Free? && s.spawned < 100
    ensures DoAll(s, es) == Some(s.(spawned := s.spawned + 1, workers := s.workers + [Running]))
  {
    hide Holds, AluFlags, JoinLeaves, AllLeaves, DoAll;
    var s1 := Do(s, Clone).value;
    var s2 := Do(s1, MainStep).value;
    assert s2 == s1.(main := SpawnAdd(s.spawned));
    var s3 := Do(s2, MainStep).value;
    assert s3 == s1.(main := SpawnStore(s.spawned + 1));
    DoOne(s, Clone);
    DoThree(s1, MainStep, MainStep, MainStep);
    DoAllAppend(s, [Clone], [MainStep, MainStep, MainStep]);
    es := [Clone] + [MainStep, MainStep, MainStep];
  }

  /** A whole signal without interference. */
  lemma SignalRuns(s: State, i: nat) returns (es: seq<Event>)
    requires i < |s.workers| && s.workers[i] == Running && s.done < 100
    ensures DoAll(s, es) == Some(s.(done := s.done + 1, workers := s.workers[i := Signalled]))
  {
    var e := WorkerStep(i);
    var s1 := Do(s, e).value;
    var s2 := Do(s1, e).value;
    var s3 := Do(s2, e).value;
    DoThree(s, e, e, e);
    assert s3.workers == s.workers[i := Signalled];
    es := [e, e, e];
  }

  /** And that happens: the increments are not atomic, and in some run a later store makes `done` smaller. */
  lemma DoneCanDecrease() returns (es: seq<Event>)
    ensures DoAll(START, es).Some? && Do(DoAll(START, es).value, WorkerStep(0)).Some?
    ensures Do(DoAll(START, es).value, WorkerStep(0)).value.done < DoAll(START, es).value.done
  {
    var a := SpawnRuns(START);
    var t1 := DoAll(START, a).value;
    var b := SpawnRuns(t1);
    var t2 := DoAll(t1, b).value;
    var c := SpawnRuns(t2);
    var t3 := DoAll(t2, c).value;
    var w := WorkerStep(0);
    DoOne(t3, w);
    var t4 := Do(t3, w).value;
    DoOne(t4, w);
    var t5 := Do(t4, w).value;
    var d := SignalRuns(t5, 1);
    var t6 := DoAll(t5, d).value;
    var e := SignalRuns(t6, 2);
    DoAllAppend(START, a, b);
    DoAllAppend(START, a + b, c);
    DoAllAppend(START, a + b + c, [w]);
    DoAllAppend(START, a + b + c + [w], [w]);
    DoAllAppend(START, a + b + c + [w] + [w], d);
    DoAllAppend(START, a + b + c + [w] + [w] + d, e);
    es := a + b + c + [w] + [w] + d + e;
  }
}
