/** The instructions emitted for `ramfs_init` and `ramfs_put`, loops included, do what the byte-string
    specification says. */
module RamfsCode {
  import opened Wrappers
  import opened Words
  import opened Memory
  import opened Regs
  import opened Isa
  import opened Assembly
  import opened Ast
  import opened Codegen
  import opened Semantics
  import opened ExprProofs
  import opened StmtProofs
  import opened SourceLanguage
  import opened MachineSteps
  import opened Flow
  import opened Ramfs

  const TABLE := "__data___ramfs"
  const EQ: Cc := 4
  const NEQ: Cc := 5

  // ---- memory as a byte string ----

  /** The bytes from `base` on. */
  ghost predicate Holds8(m: Mem, base: int, s: seq<Byte>) {
    forall i | 0 <= i < |s| :: Rd(m, base + i) == s[i]
  }

  lemma Written(m: Mem, base: int, s: seq<Byte>, at: nat, b: seq<Byte>)
    requires Holds8(m, base, s) && at + |b| <= |s|
    ensures Holds8(WriteBytes(m, base + at, b), base, WriteAt(s, at, b))
  {
    var t := WriteAt(s, at, b);
    forall i | 0 <= i < |t|
      ensures Rd(WriteBytes(m, base + at, b), base + i) == t[i]
    {
      RdWrite(m, base + at, b, base + i);
    }
  }

  lemma WrittenElsewhere(m: Mem, a: int, b: seq<Byte>)
    ensures SameOutside(m, WriteBytes(m, a, b), a, a + |b|)
  {
  }

  /** Two writes next to each other are one. */
  lemma WriteMore(m: Mem, a: int, b: seq<Byte>, c: seq<Byte>)
    ensures forall x :: Rd(WriteBytes(WriteBytes(m, a, b), a + |b|, c), x) == Rd(WriteBytes(m, a, b + c), x)
  {
    forall x
      ensures Rd(WriteBytes(WriteBytes(m, a, b), a + |b|, c), x) == Rd(WriteBytes(m, a, b + c), x)
    {
      RdWrite(m, a, b, x);
      RdWrite(WriteBytes(m, a, b), a + |b|, c, x);
      RdWrite(m, a, b + c, x);
    }
  }

  ghost predicate SameMem(a: Mem, b: Mem) {
    forall x :: Rd(a, x) == Rd(b, x)
  }

  // ---- init ----

  const INIT_REGS: seq<Reg> := [RDI, RCX]
  const ZERO_ENTER: seq<Item> := [LeaTo(RDI, TABLE), Ins(MovImm(RCX, 256)), Ins(Alu(XOR, RAX, RAX))]
  const ZERO_BODY: seq<Item> := [Ins(StoreI(W8, At(RDI, 0), RAX)), Ins(AluImm(ADD, RDI, 1)), Ins(AluImm(SUB, RCX, 1)),
    Ins(Alu(TEST, RCX, RCX))]

  function InitCode(loop: string): seq<Item> {
    Pushes(INIT_REGS) + (ZERO_ENTER + (LoopCode(loop, ZERO_BODY, NEQ) + Pops(INIT_REGS)))
  }

  lemma ZeroTurn(m: Machine, syms: Syms) returns (t: Machine)
    requires m.regs[RAX] == 0 && m.regs[RDI] as int + 1 < TWO64 && m.regs[RCX] >= 1
    ensures Run(ZERO_BODY, m, syms) == Some(t) && t.mem == WriteBytes(m.mem, m.regs[RDI], [0])
    ensures t.regs == m.regs[RDI := m.regs[RDI] + 1][RCX := m.regs[RCX] - 1] &&
            Holds(NEQ, t.flags) == Some(m.regs[RCX] != 1)
  {
    hide Run, WriteBytes, Holds, Step, AluFlags;
    Write8(m, RDI, RAX, syms);
    var m1 := m.(mem := WriteBytes(m.mem, m.regs[RDI], [0]));
    var m2 := AddStep(m1, RDI, 1, syms);
    var m3 := SubStep(m2, RCX, 1, syms);
    t := TestRuns(m3, RCX, syms);
    Run4(ZERO_BODY[0], ZERO_BODY[1], ZERO_BODY[2], ZERO_BODY[3], m, m1, m2, m3, t, syms);
  }

  function Zeros(n: nat): (s: seq<Byte>)
    ensures |s| == n
  {
    seq<Byte>(n, i => 0)
  }

  lemma {:induction false} ZeroLoop(m: Machine, n: nat, syms: Syms) returns (t: Machine)
    requires 1 <= n && m.regs[RAX] == 0 && m.regs[RCX] == n && m.regs[RDI] as int + n < TWO64
    ensures RunLoop(ZERO_BODY, NEQ, m, syms, n) == Some(t)
    ensures SameMem(t.mem, WriteBytes(m.mem, m.regs[RDI], Zeros(n)))
    ensures forall r: Reg | r != RDI && r != RCX :: t.regs[r] == m.regs[r]
    decreases n
  {
    hide Run, WriteBytes, Holds;
    var m1 := ZeroTurn(m, syms);
    if n == 1 {
      t := m1;
      assert Zeros(1) == [0];
    } else {
      t := ZeroLoop(m1, n - 1, syms);
      WriteMore(m.mem, m.regs[RDI], [0], Zeros(n - 1));
      assert [0] + Zeros(n - 1) == Zeros(n);
    }
  }

  /** Where the table and the stack words of a statement lie; what lies behind the table takes one slot more. */
  ghost predicate TablePlaced(m: Machine, base: int, stack: nat, syms: Syms) {
    && TABLE in syms && syms[TABLE] == base && 0 <= base && base + TABLE_SIZE + SLOT_SIZE < TWO64
    && stack <= m.regs[RSP] && (base + TABLE_SIZE + SLOT_SIZE <= m.regs[RSP] as int - stack || m.regs[RSP] <= base)
  }

  lemma ZeroEntered(m: Machine, base: int, syms: Syms) returns (t: Machine)
    requires TABLE in syms && syms[TABLE] == base
    ensures Run(ZERO_ENTER, m, syms) == Some(t) && Same(t, m.regs[RDI := base][RCX := 256][RAX := 0], m.mem)
  {
    hide Run;
    var m1 := m.Set(RDI, base);
    var m2 := m1.Set(RCX, 256);
    t := ClearedReg(m2, RAX, syms);
    assert Step(LeaTo(RDI, TABLE), m, syms) == Some(m1) && Step(Ins(MovImm(RCX, 256)), m1, syms) == Some(m2);
    hide Step;
    Run3(ZERO_ENTER[0], ZERO_ENTER[1], ZERO_ENTER[2], m, m1, m2, t, syms);
  }

  /** `ramfs_init`: where its items stand, execution reaches their end with the table zeroed, nothing else written
      but two dead stack words, rax cleared and every other register kept. */
  lemma InitReaches(x: Listing, pc: nat, loop: string, m: Machine, base: int, s: seq<Byte>,
                    syms: Syms) returns (t: Machine)
    requires Unique(x.items) && Stands(x, pc, InitCode(loop)) && TablePlaced(m, base, 16, syms)
    requires |s| == TABLE_SIZE + SLOT_SIZE && Holds8(m.mem, base, s)
    ensures Reaches(x, Spot(pc, m), Spot(pc + |InitCode(loop)|, t), syms)
    ensures Holds8(t.mem, base, WriteAt(s, 0, Zeros(TABLE_SIZE))) && t.regs == m.regs[RAX := 0]
    ensures forall a: int | !(base <= a < base + TABLE_SIZE) && !(m.regs[RSP] as int - 16 <= a < m.regs[RSP]) ::
            Rd(t.mem, a) == Rd(m.mem, a)
  {
    hide Run, WriteBytes, RunLoop, Pushes, Pops, SavedRegs, Stands, Unique, Reaches, WriteAt;
    var save, loops := Pushes(INIT_REGS), LoopCode(loop, ZERO_BODY, NEQ);
    var m1 := PushesRun(INIT_REGS, m, syms);
    var m2 := ZeroEntered(m1, base, syms);
    var m3 := ZeroLoop(m2, 256, syms);
    Written(m2.mem, base, s, 0, Zeros(256));
    WrittenElsewhere(m2.mem, base, Zeros(256));
    SavedAcross(m1.mem, m3.mem, m, m.regs[RSP], INIT_REGS);
    t := PopsOver(INIT_REGS, m3, m, syms);
    assert t.regs == m.regs[RAX := 0];
    StandsPart(x, pc, save, ZERO_ENTER + (loops + Pops(INIT_REGS)));
    StandsPart(x, pc + |save|, ZERO_ENTER, loops + Pops(INIT_REGS));
    StandsPart(x, pc + |save| + 3, loops, Pops(INIT_REGS));
    var p1, p2, p3 := pc + |save|, pc + |save| + 3, pc + |save| + 3 + |loops|;
    ReachRun(x, pc, save, m, m1, syms);
    ReachRun(x, p1, ZERO_ENTER, m1, m2, syms);
    LoopReaches(x, p2, loop, ZERO_BODY, NEQ, m2, m3, 256, syms);
    ReachRun(x, p3, Pops(INIT_REGS), m3, t, syms);
    ReachTrans(x, Spot(pc, m), Spot(p1, m1), Spot(p2, m2), syms);
    ReachTrans(x, Spot(pc, m), Spot(p2, m2), Spot(p3, m3), syms);
    ReachTrans(x, Spot(pc, m), Spot(p3, m3), Spot(pc + |InitCode(loop)|, t), syms);
  }

  // ---- the search for a free slot ----

  function Load8(d: Reg, b: Reg): Item {
    Ins(LoadI(W8, d, At(b, 0)))
  }

  function Store8(b: Reg, r: Reg): Item {
    Ins(StoreI(W8, At(b, 0), r))
  }

  function Test(r: Reg): Item {
    Ins(Alu(TEST, r, r))
  }

  const PROBE: seq<Item> := [Load8(RAX, R15), Test(RAX)]
  const NEXT_SLOT: seq<Item> := [Ins(AluImm(ADD, R15, 32)), Ins(AluImm(SUB, RCX, 1)), Test(RCX)]

  function SearchCode(fs: string, found: string, done: string): seq<Item> {
    [Lab(fs)] + (PROBE + ([JccTo(EQ, found)] + (NEXT_SLOT + ([JccTo(NEQ, fs)] + [JmpTo(done)]))))
  }

  /** The search stands at `p`, with its two ways out. */
  ghost predicate SearchStands(x: Listing, p: nat, fs: string, found: string, done: string, pf: nat, pd: nat) {
    && Unique(x.items) && Stands(x, p, SearchCode(fs, found, done))
    && pf < |x.items| && x.items[pf] == Lab(found) && pd < |x.items| && x.items[pd] == Lab(done)
  }

  lemma ProbeRuns(m: Machine, syms: Syms) returns (t: Machine)
    ensures Run(PROBE, m, syms) == Some(t) && Same(t, m.regs[RAX := Rd(m.mem, m.regs[R15])], m.mem)
    ensures Holds(EQ, t.flags) == Some(Rd(m.mem, m.regs[R15]) == 0)
  {
    hide Run, Holds, Step, AluFlags;
    Read8(m, RAX, R15, syms);
    t := TestRuns(m.Set(RAX, Rd(m.mem, m.regs[R15])), RAX, syms);
    Run2(PROBE[0], PROBE[1], m, syms);
  }

  lemma NextSlotRuns(m: Machine, syms: Syms) returns (t: Machine)
    requires m.regs[R15] as int + 32 < TWO64 && m.regs[RCX] >= 1
    ensures Run(NEXT_SLOT, m, syms) == Some(t) &&
            Same(t, m.regs[R15 := m.regs[R15] + 32][RCX := m.regs[RCX] - 1], m.mem)
    ensures Holds(NEQ, t.flags) == Some(m.regs[RCX] != 1)
  {
    hide Run, Holds, Step, AluFlags;
    var m1 := AddStep(m, R15, 32, syms);
    var m2 := SubStep(m1, RCX, 1, syms);
    t := TestRuns(m2, RCX, syms);
    Run3(NEXT_SLOT[0], NEXT_SLOT[1], NEXT_SLOT[2], m, m1, m2, t, syms);
  }

  /** One turn from behind the loop's label: out through `found` or `done`, or back. */
  lemma SearchTurn(x: Listing, p: nat, fs: string, found: string, done: string, pf: nat, pd: nat, m: Machine,
                   syms: Syms)
    returns (t: Machine)
    requires SearchStands(x, p, fs, found, done, pf, pd) && m.regs[R15] as int + 32 < TWO64 && m.regs[RCX] >= 1
    ensures var b := Rd(m.mem, m.regs[R15]);
            && Reaches(x, Spot(p + 1, m),
                 Spot(if b == 0 then pf + 1 else if m.regs[RCX] != 1 then p + 1 else pd + 1, t), syms)
            && Same(t, if b == 0 then m.regs[RAX := 0]
                       else m.regs[RAX := b][R15 := m.regs[R15] + 32][RCX := m.regs[RCX] - 1], m.mem)
  {
    hide Run, Holds, Stands, Unique, Reaches;
    var l5 := [JccTo(NEQ, fs)] + [JmpTo(done)];
    var l4 := NEXT_SLOT + l5;
    var l3 := [JccTo(EQ, found)] + l4;
    StandsPart(x, p, [Lab(fs)], PROBE + l3);
    StandsItem(x, p, Lab(fs));
    StandsPart(x, p + 1, PROBE, l3);
    StandsPart(x, p + 3, [JccTo(EQ, found)], l4);
    StandsPart(x, p + 4, NEXT_SLOT, l5);
    StandsPart(x, p + 7, [JccTo(NEQ, fs)], [JmpTo(done)]);
    var m1 := ProbeRuns(m, syms);
    var free := Rd(m.mem, m.regs[R15]) == 0;
    ReachRun(x, p + 1, PROBE, m, m1, syms);
    ReachBranch(x, p + 3, EQ, found, pf, m1, free, syms);
    ReachTrans(x, Spot(p + 1, m), Spot(p + 3, m1), Spot(if free then pf + 1 else p + 4, m1), syms);
    t := m1;
    if !free {
      t := NextSlotRuns(m1, syms);
      ReachRun(x, p + 4, NEXT_SLOT, m1, t, syms);
      ReachTrans(x, Spot(p + 1, m), Spot(p + 4, m1), Spot(p + 7, t), syms);
      LoopEnd(x, p + 7, p, fs, done, pd, m, t, p + 1, m.regs[RCX] != 1, syms);
    }
  }

  /** The end of a loop: back behind its label, or on through a jump. */
  lemma LoopEnd(x: Listing, q: nat, p: nat, loop: string, out: string, po: nat, m: Machine, t: Machine, start: nat,
                again: bool, syms: Syms)
    requires Unique(x.items) && Stands(x, q, [JccTo(NEQ, loop)]) && Stands(x, q + 1, [JmpTo(out)])
    requires p < |x.items| && x.items[p] == Lab(loop) && po < |x.items| && x.items[po] == Lab(out)
    requires Holds(NEQ, t.flags) == Some(again) && Reaches(x, Spot(start, m), Spot(q, t), syms)
    ensures Reaches(x, Spot(start, m), Spot(if again then p + 1 else po + 1, t), syms)
  {
    hide Holds, Stands, Unique, Reaches;
    ReachBranch(x, q, NEQ, loop, p, t, again, syms);
    ReachTrans(x, Spot(start, m), Spot(q, t), Spot(if again then p + 1 else q + 1, t), syms);
    if !again {
      ReachJump(x, q + 1, out, po, t, syms);
      ReachTrans(x, Spot(start, m), Spot(q + 1, t), Spot(po + 1, t), syms);
    }
  }

  /** The search stops at the first free slot, or behind the table. */
  lemma {:induction false} SearchReaches(x: Listing, p: nat, fs: string, found: string, done: string, pf: nat, pd: nat,
                                         m: Machine, base: int, s: seq<Byte>, k: nat, syms: Syms) returns (t: Machine)
    requires SearchStands(x, p, fs, found, done, pf, pd) && k < SLOTS && Holds8(m.mem, base, s) && |s| >= TABLE_SIZE
    requires m.regs[R15] == base + SLOT_SIZE * k && m.regs[RCX] == SLOTS - k && base + TABLE_SIZE < TWO64
    ensures var r := FirstFree(s, k);
            && Reaches(x, Spot(p + 1, m), Spot(if r < SLOTS then pf + 1 else pd + 1, t), syms)
            && t.regs[R15] == base + SLOT_SIZE * r && t.mem == m.mem
    ensures forall q: Reg | q !in {RAX, RCX, R15} :: t.regs[q] == m.regs[q]
    decreases SLOTS - k
  {
    hide SearchStands, Reaches;
    var m1 := SearchTurn(x, p, fs, found, done, pf, pd, m, syms);
    assert Rd(m.mem, base + SLOT_SIZE * k) == s[SLOT_SIZE * k];
    if s[SLOT_SIZE * k] == 0 || k == SLOTS - 1 {
      t := m1;
    } else {
      t := SearchReaches(x, p, fs, found, done, pf, pd, m1, base, s, k + 1, syms);
      ReachTrans(x, Spot(p + 1, m), Spot(p + 1, m1), Spot(if FirstFree(s, k + 1) < SLOTS then pf + 1 else pd + 1, t),
        syms);
    }
  }

  // ---- the copy of a name ----

  const MOVE_BYTE: seq<Item> := [Load8(RAX, RSI), Store8(RDI, RAX), Test(RAX)]
  const NEXT_BYTE: seq<Item> := [Ins(AluImm(ADD, RSI, 1)), Ins(AluImm(ADD, RDI, 1)), Ins(AluImm(SUB, RCX, 1)),
    Test(RCX)]
  const TERMINATE: seq<Item> := [Ins(Alu(XOR, RAX, RAX)), Store8(RDI, RAX)]

  function CopyCode(cn: string, done: string): seq<Item> {
    [Lab(cn)] + (MOVE_BYTE + ([JccTo(EQ, done)] + (NEXT_BYTE + ([JccTo(NEQ, cn)] + (TERMINATE + [Lab(done)])))))
  }

  lemma MoveByteRuns(m: Machine, syms: Syms) returns (t: Machine)
    ensures var b := Rd(m.mem, m.regs[RSI]);
            && Run(MOVE_BYTE, m, syms) == Some(t) && Same(t, m.regs[RAX := b], WriteBytes(m.mem, m.regs[RDI], [b]))
            && Holds(EQ, t.flags) == Some(b == 0)
  {
    hide Run, Holds, Step, AluFlags, WriteBytes;
    var b := Rd(m.mem, m.regs[RSI]);
    Read8(m, RAX, RSI, syms);
    var m1 := m.Set(RAX, b);
    Write8(m1, RDI, RAX, syms);
    SmallMod(b, 256);
    var m2 := m1.(mem := WriteBytes(m.mem, m.regs[RDI], [b]));
    t := TestRuns(m2, RAX, syms);
    Run3(MOVE_BYTE[0], MOVE_BYTE[1], MOVE_BYTE[2], m, m1, m2, t, syms);
  }

  lemma NextByteRuns(m: Machine, syms: Syms) returns (t: Machine)
    requires m.regs[RSI] as int + 1 < TWO64 && m.regs[RDI] as int + 1 < TWO64 && m.regs[RCX] >= 1
    ensures Run(NEXT_BYTE, m, syms) == Some(t)
    ensures Same(t, m.regs[RSI := m.regs[RSI] + 1][RDI := m.regs[RDI] + 1][RCX := m.regs[RCX] - 1], m.mem)
    ensures Holds(NEQ, t.flags) == Some(m.regs[RCX] != 1)
  {
    hide Run, Holds, Step, AluFlags;
    var m1 := AddStep(m, RSI, 1, syms);
    var m2 := AddStep(m1, RDI, 1, syms);
    var m3 := SubStep(m2, RCX, 1, syms);
    t := TestRuns(m3, RCX, syms);
    Run4(NEXT_BYTE[0], NEXT_BYTE[1], NEXT_BYTE[2], NEXT_BYTE[3], m, m1, m2, m3, t, syms);
  }

  lemma TerminateRuns(m: Machine, syms: Syms) returns (t: Machine)
    ensures Run(TERMINATE, m, syms) == Some(t) && Same(t, m.regs[RAX := 0], WriteBytes(m.mem, m.regs[RDI], [0]))
  {
    hide Run, Step, AluFlags, WriteBytes;
    var m1 := ClearedReg(m, RAX, syms);
    Write8(m1, RDI, RAX, syms);
    t := m1.(mem := WriteBytes(m1.mem, m1.regs[RDI], [0]));
    Run2(TERMINATE[0], TERMINATE[1], m, syms);
  }

  /** One turn of the copy, from behind its label. */
  lemma CopyTurn(x: Listing, p: nat, cn: string, done: string, m: Machine, syms: Syms) returns (t: Machine)
    requires Unique(x.items) && Stands(x, p, CopyCode(cn, done))
    requires m.regs[RSI] as int + 1 < TWO64 && m.regs[RDI] as int + 1 < TWO64 && m.regs[RCX] >= 1
    ensures var b, w := Rd(m.mem, m.regs[RSI]), WriteBytes(m.mem, m.regs[RDI], [Rd(m.mem, m.regs[RSI])]);
            && Reaches(x, Spot(p + 1, m), Spot(if b != 0 && m.regs[RCX] != 1 then p + 1 else p + 13, t), syms)
            && (b == 0 ==> Same(t, m.regs[RAX := b], w))
            && (b != 0 ==>
                 var regs := m.regs[RAX := b][RSI := m.regs[RSI] + 1][RDI := m.regs[RDI] + 1][RCX := m.regs[RCX] - 1];
                 if m.regs[RCX] != 1 then Same(t, regs, w)
                 else Same(t, regs[RAX := 0], WriteBytes(w, m.regs[RDI] + 1, [0])))
  {
    hide Run, Holds, Stands, Unique, Reaches, WriteBytes;
    var l6 := TERMINATE + [Lab(done)];
    var l5 := [JccTo(NEQ, cn)] + l6;
    var l4 := NEXT_BYTE + l5;
    var l3 := [JccTo(EQ, done)] + l4;
    StandsPart(x, p, [Lab(cn)], MOVE_BYTE + l3);
    StandsItem(x, p, Lab(cn));
    StandsPart(x, p + 1, MOVE_BYTE, l3);
    StandsPart(x, p + 4, [JccTo(EQ, done)], l4);
    StandsPart(x, p + 5, NEXT_BYTE, l5);
    StandsPart(x, p + 9, [JccTo(NEQ, cn)], l6);
    StandsPart(x, p + 10, TERMINATE, [Lab(done)]);
    StandsItem(x, p + 12, Lab(done));
    var m1 := MoveByteRuns(m, syms);
    var last := Rd(m.mem, m.regs[RSI]) == 0;
    ReachRun(x, p + 1, MOVE_BYTE, m, m1, syms);
    ReachBranch(x, p + 4, EQ, done, p + 12, m1, last, syms);
    ReachTrans(x, Spot(p + 1, m), Spot(p + 4, m1), Spot(if last then p + 13 else p + 5, m1), syms);
    t := m1;
    if !last {
      var m2 := NextByteRuns(m1, syms);
      ReachRun(x, p + 5, NEXT_BYTE, m1, m2, syms);
      ReachTrans(x, Spot(p + 1, m), Spot(p + 5, m1), Spot(p + 9, m2), syms);
      t := CopyEnd(x, p, cn, done, m, m2, m.regs[RCX] != 1, syms);
    }
  }

  lemma CopyEnd(x: Listing, p: nat, cn: string, done: string, m: Machine, m2: Machine, again: bool,
                syms: Syms) returns (t: Machine)
    requires Unique(x.items) && p < |x.items| && x.items[p] == Lab(cn)
    requires Stands(x, p + 9, [JccTo(NEQ, cn)]) && Stands(x, p + 10, TERMINATE) && Stands(x, p + 12, [Lab(done)])
    requires Holds(NEQ, m2.flags) == Some(again) && Reaches(x, Spot(p + 1, m), Spot(p + 9, m2), syms)
    ensures Reaches(x, Spot(p + 1, m), Spot(if again then p + 1 else p + 13, t), syms)
    ensures if again then t == m2 else Same(t, m2.regs[RAX := 0], WriteBytes(m2.mem, m2.regs[RDI], [0]))
  {
    hide Run, Holds, Stands, Unique, Reaches, WriteBytes;
    ReachBranch(x, p + 9, NEQ, cn, p, m2, again, syms);
    ReachTrans(x, Spot(p + 1, m), Spot(p + 9, m2), Spot(if again then p + 1 else p + 10, m2), syms);
    t := m2;
    if !again {
      t := TerminateRuns(m2, syms);
      ReachRun(x, p + 10, TERMINATE, m2, t, syms);
      LabelRuns(done, t, syms);
      ReachRun(x, p + 12, [Lab(done)], t, t, syms);
      ReachTrans(x, Spot(p + 1, m), Spot(p + 10, m2), Spot(p + 12, t), syms);
      ReachTrans(x, Spot(p + 1, m), Spot(p + 12, t), Spot(p + 13, t), syms);
    }
  }

  /** Sixteen bytes at the name's address, apart from the entry they are copied to. */
  ghost predicate NameAt(m: Mem, nm: int, name: seq<Byte>, at: int) {
    |name| == NAME_SIZE && Holds8(m, nm, name) && 0 <= nm && nm + NAME_SIZE < TWO64 &&
      (nm + NAME_SIZE <= at || at + NAME_SIZE <= nm)
  }

  /** The copy has written the first i bytes, none of them NUL. */
  ghost predicate Copied(was: Mem, m: Mem, at: int, name: seq<Byte>, i: nat)
    requires i <= |name|
  {
    SameMem(m, WriteBytes(was, at, name[..i])) && NulFree(name[..i])
  }

  lemma CopyByte(was: Mem, m: Mem, nm: int, at: int, name: seq<Byte>, i: nat)
    requires NameAt(was, nm, name, at) && i < NAME_SIZE && Copied(was, m, at, name, i)
    ensures Rd(m, nm + i) == name[i]
    ensures SameMem(WriteBytes(m, at + i, [name[i]]), WriteBytes(was, at, name[..i + 1]))
    ensures name[i] != 0 ==> NulFree(name[..i + 1])
  {
    hide WriteBytes, SameMem, NulFree, Rd;
    OneMore(name, i);
    NameByte(was, m, nm, at, name, i);
    Appended(was, m, at, name[..i], name[i]);
    assert name[..i] + [name[i]] == name[..i + 1];
  }

  lemma NameByte(was: Mem, m: Mem, nm: int, at: int, name: seq<Byte>, i: nat)
    requires NameAt(was, nm, name, at) && i < NAME_SIZE && SameMem(m, WriteBytes(was, at, name[..i]))
    ensures Rd(m, nm + i) == name[i]
  {
    hide WriteBytes;
    RdWrite(was, at, name[..i], nm + i);
  }

  lemma Appended(was: Mem, m: Mem, at: int, b: seq<Byte>, c: Byte)
    requires SameMem(m, WriteBytes(was, at, b))
    ensures SameMem(WriteBytes(m, at + |b|, [c]), WriteBytes(was, at, b + [c]))
  {
    hide WriteBytes;
    WriteMore(was, at, b, [c]);
    WriteOver(m, WriteBytes(was, at, b), at + |b|, [c]);
  }

  lemma OneMore(name: seq<Byte>, i: nat)
    requires i < |name| && NulFree(name[..i])
    ensures name[i] != 0 ==> NulFree(name[..i + 1])
  {
    forall j | 0 <= j < i
      ensures name[j] != 0
    {
      assert name[..i][j] == name[j];
    }
  }

  lemma WriteOver(a: Mem, b: Mem, at: int, s: seq<Byte>)
    requires SameMem(a, b)
    ensures SameMem(WriteBytes(a, at, s), WriteBytes(b, at, s))
  {
    forall x
      ensures Rd(WriteBytes(a, at, s), x) == Rd(WriteBytes(b, at, s), x)
    {
      RdWrite(a, at, s, x);
      RdWrite(b, at, s, x);
    }
  }

  /** The copy writes the bytes before the first NUL, at most fifteen, and a NUL. */
  lemma {:induction false} CopyReaches(x: Listing, p: nat, cn: string, done: string, m: Machine, was: Mem, nm: int,
                                       at: int, name: seq<Byte>, i: nat, syms: Syms)
    returns (t: Machine)
    requires Unique(x.items) && Stands(x, p, CopyCode(cn, done)) && i < 15 && NameAt(was, nm, name, at) && 0 <= at &&
             at + NAME_SIZE < TWO64
    requires m.regs[RSI] == nm + i && m.regs[RDI] == at + i && m.regs[RCX] == 15 - i && Copied(was, m.mem, at, name, i)
    ensures Terminated(name) && Reaches(x, Spot(p + 1, m), Spot(p + 13, t), syms)
    ensures SameMem(t.mem, WriteBytes(was, at, name[..NameLen(name)] + [0]))
    ensures forall q: Reg | q !in {RAX, RCX, RSI, RDI} :: t.regs[q] == m.regs[q]
    decreases 15 - i
  {
    hide Stands, Unique, Reaches, WriteBytes, NameLen;
    CopyByte(was, m.mem, nm, at, name, i);
    var m1 := CopyTurn(x, p, cn, done, m, syms);
    if name[i] == 0 {
      t := m1;
      LenIs(name, i);
      assert name[..i + 1] == name[..i] + [0];
    } else if i == 14 {
      t := m1;
      LenIs(name, 15);
      WriteOver(WriteBytes(m.mem, at + 14, [name[14]]), WriteBytes(was, at, name[..15]), at + 15, [0]);
      WriteMore(was, at, name[..15], [0]);
    } else {
      t := CopyReaches(x, p, cn, done, m1, was, nm, at, name, i + 1, syms);
      ReachTrans(x, Spot(p + 1, m), Spot(p + 1, m1), Spot(p + 13, t), syms);
    }
  }

  lemma LenIs(name: seq<Byte>, i: nat)
    requires |name| == NAME_SIZE && i <= 15 && NulFree(name[..i]) && (i < 15 ==> name[i] == 0)
    ensures NameLen(name) == i
  {
    PrefixBytes(name, i);
    PrefixBytes(name, NameLen(name));
  }

  // ---- put ----

  const PUT_REGS: seq<Reg> := [R12, R13, R14]
  const PUT_ENTER: seq<Item> := [LeaTo(R15, TABLE), Ins(MovImm(RCX, 8))]
  const PUT_FINISH: seq<Item> := [Ins(StoreI(W64, At(R15, 16), R13)), Ins(StoreI(W64, At(R15, 24), R14))]

  function PreparedCode(found: string): seq<Item> {
    [Lab(found), Ins(MovRR(RDI, R15)), Ins(MovRR(RSI, R12)), Ins(MovImm(RCX, 15))]
  }

  /** From the table's address on: search, copy, store. */
  function PutLoops(fs: string, found: string, cn: string, done: string): seq<Item> {
    PUT_ENTER + (SearchCode(fs, found, done) + (PreparedCode(found) + (CopyCode(cn, done) + PUT_FINISH)))
  }

  lemma PreparedRuns(found: string, m: Machine, syms: Syms) returns (t: Machine)
    ensures Run(PreparedCode(found), m, syms) == Some(t) &&
            t == m.(regs := m.regs[RDI := m.regs[R15]][RSI := m.regs[R12]][RCX := 15])
  {
    hide Run;
    var m1 := m.Set(RDI, m.regs[R15]);
    var m2 := m1.Set(RSI, m.regs[R12]);
    t := m2.Set(RCX, 15);
    assert Step(Lab(found), m, syms) == Some(m) && Step(Ins(MovRR(RDI, R15)), m, syms) == Some(m1);
    assert Step(Ins(MovRR(RSI, R12)), m1, syms) == Some(m2) && Step(Ins(MovImm(RCX, 15)), m2, syms) == Some(t);
    hide Step;
    Run4(Lab(found), Ins(MovRR(RDI, R15)), Ins(MovRR(RSI, R12)), Ins(MovImm(RCX, 15)), m, m, m1, m2, t, syms);
  }

  lemma FinishRuns(m: Machine, base: int, s: seq<Byte>, at: nat, syms: Syms) returns (t: Machine)
    requires m.regs[R15] == base + at && base + |s| < TWO64 && 0 <= base && at + SLOT_SIZE <= |s| &&
             Holds8(m.mem, base, s)
    ensures Run(PUT_FINISH, m, syms) == Some(t) && t.regs == m.regs && t.flags == m.flags
    ensures Holds8(t.mem, base, WriteAt(s, at + NAME_SIZE, Ramfs.Fields(m.regs[R13], m.regs[R14])))
    ensures SameOutside(m.mem, t.mem, base, base + |s|)
  {
    hide Run, WriteBytes, LE, WriteAt;
    StoreStep(m, R15, 16, R13, syms);
    var m1 := m.(mem := Store64(m.mem, base + at + 16, m.regs[R13]));
    StoreStep(m1, R15, 24, R14, syms);
    t := m1.(mem := Store64(m1.mem, base + at + 24, m.regs[R14]));
    hide Step;
    Run2(PUT_FINISH[0], PUT_FINISH[1], m, syms);
    var s1 := WriteAt(s, at + 16, LE(m.regs[R13], 8));
    Written(m.mem, base, s, at + 16, LE(m.regs[R13], 8));
    Written(m1.mem, base, s1, at + 24, LE(m.regs[R14], 8));
    TwoWrites(s, at + 16, LE(m.regs[R13], 8), LE(m.regs[R14], 8));
    WrittenElsewhere(m.mem, base + at + 16, LE(m.regs[R13], 8));
    WrittenElsewhere(m1.mem, base + at + 24, LE(m.regs[R14], 8));
  }

  lemma EnterRuns(m: Machine, base: int, syms: Syms) returns (t: Machine)
    requires TABLE in syms && syms[TABLE] == base
    ensures Run(PUT_ENTER, m, syms) == Some(t) && t == m.(regs := m.regs[R15 := base][RCX := 8])
  {
    hide Run;
    var m1 := m.Set(R15, base);
    t := m1.Set(RCX, 8);
    assert Step(LeaTo(R15, TABLE), m, syms) == Some(m1) && Step(Ins(MovImm(RCX, 8)), m1, syms) == Some(t);
    hide Step;
    Run2(PUT_ENTER[0], PUT_ENTER[1], m, syms);
  }

  /** Where the parts of a put stand. */
  lemma PutParts(x: Listing, p: nat, fs: string, found: string, cn: string, done: string)
    requires Unique(x.items) && Stands(x, p, PutLoops(fs, found, cn, done))
    ensures Stands(x, p, PUT_ENTER) && SearchStands(x, p + 2, fs, found, done, p + 11, p + 27)
    ensures Stands(x, p + 2, [Lab(fs)]) && Stands(x, p + 11, PreparedCode(found)) &&
            Stands(x, p + 15, CopyCode(cn, done))
    ensures Stands(x, p + 15, [Lab(cn)]) && Stands(x, p + 28, PUT_FINISH)
  {
    hide Stands, Unique;
    var search, prepare, copy := SearchCode(fs, found, done), PreparedCode(found), CopyCode(cn, done);
    StandsPart(x, p, PUT_ENTER, search + (prepare + (copy + PUT_FINISH)));
    StandsPart(x, p + 2, search, prepare + (copy + PUT_FINISH));
    StandsPart(x, p + 11, prepare, copy + PUT_FINISH);
    StandsPart(x, p + 15, copy, PUT_FINISH);
    StandsPart(x, p + 2, [Lab(fs)], PROBE + ([JccTo(EQ, found)] + (NEXT_SLOT + ([JccTo(NEQ, fs)] + [JmpTo(done)]))));
    var l3 := [JccTo(EQ, done)] + (NEXT_BYTE + ([JccTo(NEQ, cn)] + (TERMINATE + [Lab(done)])));
    StandsPart(x, p + 15, [Lab(cn)], MOVE_BYTE + l3);
    assert copy == ([Lab(cn)] + MOVE_BYTE + [JccTo(EQ, done)] + NEXT_BYTE + [JccTo(NEQ, cn)] + TERMINATE) + [Lab(done)];
    StandsPart(x, p + 15, [Lab(cn)] + MOVE_BYTE + [JccTo(EQ, done)] + NEXT_BYTE + [JccTo(NEQ, cn)] + TERMINATE,
      [Lab(done)]);
    StandsItem(x, p + 27, Lab(done));
    assert prepare == [Lab(found)] + prepare[1..];
    StandsPart(x, p + 11, [Lab(found)], prepare[1..]);
    StandsItem(x, p + 11, Lab(found));
  }

  /** The name's sixteen bytes lie apart from the table and the slot behind it. */
  ghost predicate NameApart(m: Mem, nm: int, name: seq<Byte>, base: int) {
    && |name| == NAME_SIZE && Holds8(m, nm, name) && 0 <= nm && nm + NAME_SIZE < TWO64
    && (nm + NAME_SIZE <= base || base + TABLE_SIZE + SLOT_SIZE <= nm)
  }

  /** The table as bytes, with the slot behind it. */
  ghost predicate TableAt(m: Mem, base: int, s: seq<Byte>) {
    |s| == TABLE_SIZE + SLOT_SIZE && Holds8(m, base, s) && 0 <= base && base + TABLE_SIZE + SLOT_SIZE < TWO64
  }

  /** Search, copy and stores from the table's address on: the whole effect of a put on memory. */
  lemma LoopsReach(x: Listing, p: nat, fs: string, found: string, cn: string, done: string, m: Machine, base: int,
                   s: seq<Byte>,
                   name: seq<Byte>, syms: Syms) returns (t: Machine)
    requires Unique(x.items) && Stands(x, p, PutLoops(fs, found, cn, done)) && TABLE in syms && syms[TABLE] == base
    requires TableAt(m.mem, base, s) && NameApart(m.mem, m.regs[R12], name, base)
    ensures Reaches(x, Spot(p, m), Spot(p + 30, t), syms)
    ensures Terminated(name) && Holds8(t.mem, base, PutSpec(s, name, m.regs[R13], m.regs[R14]))
    ensures SameOutside(m.mem, t.mem, base, base + TABLE_SIZE + SLOT_SIZE)
    ensures forall q: Reg | q !in {RAX, RCX, RSI, RDI, R15} :: t.regs[q] == m.regs[q]
  {
    hide Run, Stands, Unique, Reaches, SearchStands, WriteBytes, NameLen, WriteAt, Holds8, Terminated, FirstFree;
    PutParts(x, p, fs, found, cn, done);
    assert Terminated(name) by { LongEnough(name); }
    var m1 := EnterRuns(m, base, syms);
    ReachRun(x, p, PUT_ENTER, m, m1, syms);
    LabelRuns(fs, m1, syms);
    ReachRun(x, p + 2, [Lab(fs)], m1, m1, syms);
    var m2 := SearchReaches(x, p + 2, fs, found, done, p + 11, p + 27, m1, base, s, 0, syms);
    var k := FirstFree(s, 0);
    FreeBound(s);
    ReachTrans(x, Spot(p, m), Spot(p + 2, m1), Spot(p + 3, m1), syms);
    var after := if k < SLOTS then p + 12 else p + 28;
    ReachTrans(x, Spot(p, m), Spot(p + 3, m1), Spot(after, m2), syms);
    var m3, named := m2, s;
    if k < SLOTS {
      m3 := NameReaches(x, p, found, cn, done, m2, base, s, name, k, syms);
      named := WriteAt(s, SLOT_SIZE * k, name[..NameLen(name)] + [0]);
      ReachTrans(x, Spot(p, m), Spot(p + 12, m2), Spot(p + 28, m3), syms);
    }
    t := FinishRuns(m3, base, named, SLOT_SIZE * k, syms);
    ReachRun(x, p + 28, PUT_FINISH, m3, t, syms);
    ReachTrans(x, Spot(p, m), Spot(p + 28, m3), Spot(p + 30, t), syms);
  }

  lemma LongEnough(name: seq<Byte>)
    requires |name| == NAME_SIZE
    ensures Terminated(name)
  {
  }

  lemma FreeBound(s: seq<Byte>)
    requires |s| >= TABLE_SIZE
    ensures FirstFree(s, 0) <= SLOTS
  {
  }

  /** From a free slot to behind the copy. */
  lemma NameReaches(x: Listing, p: nat, found: string, cn: string, done: string, m: Machine, base: int, s: seq<Byte>,
                    name: seq<Byte>, k: nat, syms: Syms)
    returns (t: Machine)
    requires Unique(x.items) && Stands(x, p + 11, PreparedCode(found)) && Stands(x, p + 15, CopyCode(cn, done)) &&
             Stands(x, p + 15, [Lab(cn)])
    requires TableAt(m.mem, base, s) && NameApart(m.mem, m.regs[R12], name, base) && k < SLOTS &&
             m.regs[R15] == base + SLOT_SIZE * k
    ensures Terminated(name) && Reaches(x, Spot(p + 12, m), Spot(p + 28, t), syms)
    ensures Holds8(t.mem, base, WriteAt(s, SLOT_SIZE * k, name[..NameLen(name)] + [0]))
    ensures SameOutside(m.mem, t.mem, base, base + TABLE_SIZE)
    ensures forall q: Reg | q !in {RAX, RCX, RSI, RDI} :: t.regs[q] == m.regs[q]
  {
    hide Run, Stands, Unique, Reaches, WriteBytes, WriteAt, Terminated, NameLen;
    assert Terminated(name) by { LongEnough(name); }
    var at := base + SLOT_SIZE * k;
    var m1 := PreparedRuns(found, m, syms);
    PreparedTail(x, p + 11, found, m, m1, syms);
    LabelRuns(cn, m1, syms);
    ReachRun(x, p + 15, [Lab(cn)], m1, m1, syms);
    NothingCopied(m1.mem, at, name);
    t := CopyReaches(x, p + 15, cn, done, m1, m.mem, m.regs[R12], at, name, 0, syms);
    ReachTrans(x, Spot(p + 12, m), Spot(p + 15, m1), Spot(p + 16, m1), syms);
    ReachTrans(x, Spot(p + 12, m), Spot(p + 16, m1), Spot(p + 28, t), syms);
    var b := name[..NameLen(name)] + [0];
    assert |b| <= NAME_SIZE by { LenBound(name); }
    Written(m.mem, base, s, SLOT_SIZE * k, b);
    WrittenElsewhere(m.mem, at, b);
  }

  lemma LenBound(name: seq<Byte>)
    requires Terminated(name)
    ensures NameLen(name) <= 15
  {
  }

  lemma NothingCopied(m: Mem, at: int, name: seq<Byte>)
    ensures Copied(m, m, at, name, 0)
  {
    forall x
      ensures Rd(WriteBytes(m, at, name[..0]), x) == Rd(m, x)
    {
      RdWrite(m, at, name[..0], x);
    }
  }

  /** The moves behind the label of a free slot. */
  lemma PreparedTail(x: Listing, p: nat, found: string, m: Machine, t: Machine, syms: Syms)
    requires Stands(x, p, PreparedCode(found)) && Run(PreparedCode(found), m, syms) == Some(t)
    ensures Reaches(x, Spot(p + 1, m), Spot(p + 4, t), syms)
  {
    hide Run, Stands, Reaches;
    var rest := [Ins(MovRR(RDI, R15)), Ins(MovRR(RSI, R12)), Ins(MovImm(RCX, 15))];
    assert PreparedCode(found) == [Lab(found)] + rest;
    StandsPart(x, p, [Lab(found)], rest);
    RunCons(Lab(found), rest, m, syms);
    ReachRun(x, p + 1, rest, m, t, syms);
  }

  // ---- the whole put ----

  predicate PutEmitted(name: Expr, data: Expr, len: Expr, c: Ctx) {
    ExprCode(name, R12, c).Some? && ExprCode(data, R13, c).Some? && ExprCode(len, R14, c).Some?
  }

  function Operands(name: Expr, data: Expr, len: Expr, c: Ctx): seq<Item>
    requires PutEmitted(name, data, len, c)
  {
    (ExprCode(name, R12, c).value + ExprCode(data, R13, c).value) + ExprCode(len, R14, c).value
  }

  function PutCode(fs: string, found: string, cn: string, done: string, name: Expr, data: Expr, len: Expr,
                   c: Ctx): seq<Item>
    requires PutEmitted(name, data, len, c)
  {
    (Pushes(PUT_REGS) + Operands(name, data, len, c)) + (PutLoops(fs, found, cn, done) + Pops(PUT_REGS))
  }

  /** The three values as the code computes them: each is evaluated with the ones before it already in r12 and r13,
      and the name's address in r12 is what later compound operands leave there. */
  datatype Seen3 = Seen3(name: Word, data: Word, len: Word)

  function PutSeen(name: Expr, data: Expr, len: Expr, c: Ctx, m: Machine, syms: Syms): Seen3 {
    var a := Seen(name, m.regs[R12], c, m, syms);
    var d := Seen(data, a, c, m, syms);
    var x := R12After(data, a, c, m, syms);
    var m' := m.Set(R13, d);
    Seen3(R12After(len, x, c, m', syms), d, Seen(len, x, c, m', syms))
  }

  function MaxDepth3(a: Expr, b: Expr, d: Expr): nat {
    var ab := if Depth(a) > Depth(b) then Depth(a) else Depth(b);
    if ab > Depth(d) then ab else Depth(d)
  }

  /** One operand, against a machine that agrees where operands read. */
  lemma OperandRuns(e: Expr, d: Reg, c: Ctx, was: Machine, m: Machine, lo: int, syms: Syms) returns (t: Machine)
    requires WellFormed(c) && ExprCode(e, d, c).Some? && Readable(e, c, was, lo, syms) && d in {R12, R13, R14}
    requires AgreeUser(was, m, lo) && m.regs[RSP] <= lo && 8 * Depth(e) <= m.regs[RSP]
    ensures Run(ExprCode(e, d, c).value, m, syms) == Some(t)
    ensures t.regs[d] == Seen(e, m.regs[R12], c, was, syms) &&
            (d != R12 ==> t.regs[R12] == R12After(e, m.regs[R12], c, was, syms))
    ensures forall q: Reg | q != d && q != R12 && (q == R11 ==> !Compound(e)) :: t.regs[q] == m.regs[q]
    ensures SameOutside(m.mem, t.mem, m.regs[RSP] as int - 8 * Depth(e), m.regs[RSP])
  {
    hide Run, Seen, SeenFlags, R12After, Readable, ExprCode, Depth, WellFormed;
    SeenSame(e, m.regs[R12], c, was, m, lo, syms);
    WeakenReadable(e, c, m, lo, m.regs[RSP], syms);
    EvalSees(e, d, c, m, syms);
    t := Run(ExprCode(e, d, c).value, m, syms).value;
  }

  lemma {:induction false} ReadableSame(e: Expr, c: Ctx, m: Machine, m': Machine, lo: int, syms: Syms)
    requires Readable(e, c, m, lo, syms) && m'.regs[RBP] == m.regs[RBP]
    ensures Readable(e, c, m', lo, syms)
  {
    if e.Bin? {
      ReadableSame(e.left, c, m, m', lo, syms);
      ReadableSame(e.right, c, m, m', lo, syms);
    }
  }

  /** The name's address and the data in r12 and r13. */
  lemma TwoOperands(name: Expr, data: Expr, c: Ctx, m: Machine, m1: Machine, depth: nat,
                    syms: Syms) returns (t: Machine)
    requires WellFormed(c) && ExprCode(name, R12, c).Some? && ExprCode(data, R13, c).Some? &&
             24 + 8 * depth <= m.regs[RSP]
    requires Depth(name) <= depth && Depth(data) <= depth
    requires Readable(name, c, m, m.regs[RSP], syms) && Readable(data, c, m, m.regs[RSP], syms)
    requires m1.regs == m.regs[RSP := m.regs[RSP] as int - 24] && SameFrom(m.mem, m1.mem, m.regs[RSP])
    ensures Run(ExprCode(name, R12, c).value + ExprCode(data, R13, c).value, m1, syms) == Some(t)
    ensures var a := Seen(name, m.regs[R12], c, m, syms);
            t.regs[R13] == Seen(data, a, c, m, syms) && t.regs[R12] == R12After(data, a, c, m, syms)
    ensures forall q: Reg | q !in {R11, R12, R13} :: t.regs[q] == m1.regs[q]
    ensures !Compound(name) && !Compound(data) ==> t.regs[R11] == m1.regs[R11]
    ensures SameOutside(m1.mem, t.mem, m1.regs[RSP] as int - 8 * depth, m1.regs[RSP])
  {
    hide Run, Seen, R12After, Readable, ExprCode, Depth, WellFormed, Compound;
    var m2 := OperandRuns(name, R12, c, m, m1, m.regs[RSP], syms);
    t := OperandRuns(data, R13, c, m, m2, m.regs[RSP], syms);
    Then(ExprCode(name, R12, c).value, ExprCode(data, R13, c).value, m1, m2, syms);
  }

  lemma DataInPlace(m: Machine, m1: Machine, m3: Machine, depth: nat)
    requires 24 + 8 * depth <= m.regs[RSP] && m1.regs == m.regs[RSP := m.regs[RSP] as int - 24] &&
             SameFrom(m.mem, m1.mem, m.regs[RSP])
    requires forall q: Reg | q !in {R11, R12, R13} :: m3.regs[q] == m1.regs[q]
    requires SameOutside(m1.mem, m3.mem, m1.regs[RSP] as int - 8 * depth, m1.regs[RSP])
    ensures AgreeUser(m.Set(R13, m3.regs[R13]), m3, m.regs[RSP])
  {
  }

  /** The length, read where the data is already in r13. */
  lemma LastOperand(len: Expr, c: Ctx, m: Machine, m3: Machine, depth: nat, syms: Syms) returns (t: Machine)
    requires WellFormed(c) && ExprCode(len, R14, c).Some? && Depth(len) <= depth && 24 + 8 * depth <= m.regs[RSP]
    requires Readable(len, c, m, m.regs[RSP], syms) && AgreeUser(m.Set(R13, m3.regs[R13]), m3, m.regs[RSP])
    requires m3.regs[RSP] == m.regs[RSP] as int - 24
    ensures Run(ExprCode(len, R14, c).value, m3, syms) == Some(t)
    ensures var was := m.Set(R13, m3.regs[R13]);
            t.regs[R14] == Seen(len, m3.regs[R12], c, was, syms) &&
              t.regs[R12] == R12After(len, m3.regs[R12], c, was, syms)
    ensures forall q: Reg | q !in {R11, R12, R14} :: t.regs[q] == m3.regs[q]
    ensures !Compound(len) ==> t.regs[R11] == m3.regs[R11]
    ensures SameOutside(m3.mem, t.mem, m3.regs[RSP] as int - 8 * depth, m3.regs[RSP])
  {
    hide Run, Seen, R12After, Readable, ExprCode, Depth, WellFormed, Compound, AgreeUser;
    var was := m.Set(R13, m3.regs[R13]);
    ReadableSame(len, c, m, was, m.regs[RSP], syms);
    t := OperandRuns(len, R14, c, was, m3, m.regs[RSP], syms);
  }

  /** The operands in r12 to r14, once the registers are saved. */
  lemma ThreeOperands(name: Expr, data: Expr, len: Expr, c: Ctx, m: Machine, m1: Machine, depth: nat,
                      syms: Syms) returns (t: Machine)
    requires WellFormed(c) && PutEmitted(name, data, len, c) && 24 + 8 * depth <= m.regs[RSP]
    requires Depth(name) <= depth && Depth(data) <= depth && Depth(len) <= depth
    requires Readable(name, c, m, m.regs[RSP], syms) && Readable(data, c, m, m.regs[RSP], syms) &&
             Readable(len, c, m, m.regs[RSP], syms)
    requires m1.regs == m.regs[RSP := m.regs[RSP] as int - 24] && SameFrom(m.mem, m1.mem, m.regs[RSP])
    ensures Run(Operands(name, data, len, c), m1, syms) == Some(t)
    ensures Seen3(t.regs[R12], t.regs[R13], t.regs[R14]) == PutSeen(name, data, len, c, m, syms)
    ensures forall q: Reg | q !in {R11, R12, R13, R14} :: t.regs[q] == m1.regs[q]
    ensures !Compound(name) && !Compound(data) && !Compound(len) ==> t.regs[R11] == m1.regs[R11]
    ensures SameOutside(m1.mem, t.mem, m1.regs[RSP] as int - 8 * depth, m1.regs[RSP])
  {
    hide Run, Seen, R12After, Readable, ExprCode, Depth, WellFormed, Compound, AgreeUser, Operands;
    var m3 := TwoOperands(name, data, c, m, m1, depth, syms);
    DataInPlace(m, m1, m3, depth);
    t := LastOperand(len, c, m, m3, depth, syms);
    Chained(name, data, len, c, m1, m3, t, syms);
  }

  lemma Chained(name: Expr, data: Expr, len: Expr, c: Ctx, m1: Machine, m3: Machine, t: Machine, syms: Syms)
    requires PutEmitted(name, data, len, c) &&
             Run(ExprCode(name, R12, c).value + ExprCode(data, R13, c).value, m1, syms) == Some(m3)
    requires Run(ExprCode(len, R14, c).value, m3, syms) == Some(t)
    ensures Run(Operands(name, data, len, c), m1, syms) == Some(t)
  {
    hide Run, ExprCode;
    Then(ExprCode(name, R12, c).value + ExprCode(data, R13, c).value, ExprCode(len, R14, c).value, m1, m3, syms);
  }

  /** The three registers saved and the operands in them. */
  lemma OperandsRun(name: Expr, data: Expr, len: Expr, c: Ctx, m: Machine, syms: Syms) returns (t: Machine)
    requires WellFormed(c) && PutEmitted(name, data, len, c) && 24 + 8 * MaxDepth3(name, data, len) <= m.regs[RSP]
    requires Readable(name, c, m, m.regs[RSP], syms) && Readable(data, c, m, m.regs[RSP], syms) &&
             Readable(len, c, m, m.regs[RSP], syms)
    ensures Run(Pushes(PUT_REGS) + Operands(name, data, len, c), m, syms) == Some(t)
    ensures Seen3(t.regs[R12], t.regs[R13], t.regs[R14]) == PutSeen(name, data, len, c, m, syms) &&
            t.regs[RSP] == m.regs[RSP] as int - 24
    ensures forall q: Reg | q !in {R11, R12, R13, R14, RSP} :: t.regs[q] == m.regs[q]
    ensures !Compound(name) && !Compound(data) && !Compound(len) ==> t.regs[R11] == m.regs[R11]
    ensures SavedRegs(t.mem, m, m.regs[RSP], PUT_REGS)
    ensures SameOutside(m.mem, t.mem, m.regs[RSP] as int - 24 - 8 * MaxDepth3(name, data, len), m.regs[RSP])
  {
    hide Run, PutSeen, Operands, Readable, ExprCode, Depth, WellFormed, Pushes, SavedRegs;
    var m1 := PushesRun(PUT_REGS, m, syms);
    t := ThreeOperands(name, data, len, c, m, m1, MaxDepth3(name, data, len), syms);
    SavedAcross(m1.mem, t.mem, m, m.regs[RSP], PUT_REGS);
    Then(Pushes(PUT_REGS), Operands(name, data, len, c), m, m1, syms);
  }

  /** The table and the name's bytes lie apart from the stack words the statement uses. */
  ghost predicate PutPlaced(m: Machine, base: int, s: seq<Byte>, nm: int, name: seq<Byte>, stack: nat, syms: Syms) {
    && TablePlaced(m, base, stack, syms) && TableAt(m.mem, base, s) && NameApart(m.mem, nm, name, base)
    && (nm + NAME_SIZE <= m.regs[RSP] as int - stack || m.regs[RSP] <= nm)
  }

  /** `ramfs_put`, for any operands: where its items stand, execution reaches their end; the table, with the slot
      behind it, is what the specification makes of the values the code sees; nothing else is written but dead
      stack words; rax, rcx, rsi, rdi and r15 are scratch, r11 too for compound operands, and every other register
      is kept, r12 to r14 included. */
  lemma PutReaches(x: Listing, pc: nat, fs: string, found: string, cn: string, done: string, name: Expr, data: Expr,
                   len: Expr, c: Ctx,
                   m: Machine, base: int, s: seq<Byte>, bytes: seq<Byte>, syms: Syms) returns (t: Machine)
    requires WellFormed(c) && PutEmitted(name, data, len, c) && Unique(x.items) &&
             Stands(x, pc, PutCode(fs, found, cn, done, name, data, len, c))
    requires Readable(name, c, m, m.regs[RSP], syms) && Readable(data, c, m, m.regs[RSP], syms) &&
             Readable(len, c, m, m.regs[RSP], syms)
    requires PutPlaced(m, base, s, PutSeen(name, data, len, c, m, syms).name, bytes,
             24 + 8 * MaxDepth3(name, data, len), syms)
    ensures Reaches(x, Spot(pc, m), Spot(pc + |PutCode(fs, found, cn, done, name, data, len, c)|, t), syms)
    ensures var v := PutSeen(name, data, len, c, m, syms);
            Terminated(bytes) && TableAt(t.mem, base, PutSpec(s, bytes, v.data, v.len))
    ensures forall q: Reg | q !in {RAX, RCX, RSI, RDI, R11, R15} :: t.regs[q] == m.regs[q]
    ensures !Compound(name) && !Compound(data) && !Compound(len) ==> t.regs[R11] == m.regs[R11]
    ensures forall a: int | !(base <= a < base + TABLE_SIZE + SLOT_SIZE) &&
                            !(m.regs[RSP] as int - 24 - 8 * MaxDepth3(name, data, len) <= a < m.regs[RSP]) ::
              Rd(t.mem, a) == Rd(m.mem, a)
  {
    hide Run, Readable, ExprCode, Operands, PutLoops, MaxDepth3, WellFormed, Pushes, Pops, SavedRegs, Stands, Unique,
      Reaches, PutSeen, PutSpec, Terminated;
    var head, loops := Pushes(PUT_REGS) + Operands(name, data, len, c), PutLoops(fs, found, cn, done);
    var m1 := OperandsRun(name, data, len, c, m, syms);
    var p := pc + |head|;
    StandsPart(x, pc, head, loops + Pops(PUT_REGS));
    StandsPart(x, p, loops, Pops(PUT_REGS));
    assert |loops| == 30 by { LoopsLength(fs, found, cn, done); }
    var m2 := LoopsReach(x, p, fs, found, cn, done, m1, base, s, bytes, syms);
    SavedAcross(m1.mem, m2.mem, m, m.regs[RSP], PUT_REGS);
    t := PopsOver(PUT_REGS, m2, m, syms);
    ReachRun(x, pc, head, m, m1, syms);
    ReachRun(x, p + 30, Pops(PUT_REGS), m2, t, syms);
    ReachTrans(x, Spot(pc, m), Spot(p, m1), Spot(p + 30, m2), syms);
    ReachTrans(x, Spot(pc, m), Spot(p + 30, m2), Spot(p + 30 + |Pops(PUT_REGS)|, t), syms);
  }

  lemma LoopsLength(fs: string, found: string, cn: string, done: string)
    ensures |PutLoops(fs, found, cn, done)| == 30
  {
  }
}
