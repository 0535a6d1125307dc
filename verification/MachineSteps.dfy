/** One-instruction facts shared by the proofs about kernel code sequences. */
module MachineSteps {
  import opened Wrappers
  import opened Words
  import opened Memory
  import opened Regs
  import opened Isa
  import opened Assembly
  import opened Semantics
  import opened StmtProofs

  function At(r: Reg, disp: int): MemRef {
    MemRef(r, disp, NoIndex)
  }

  lemma Run3(a: Item, b: Item, c: Item, m: Machine, m1: Machine, m2: Machine, m3: Machine, syms: Syms)
    requires Step(a, m, syms) == Some(m1) && Step(b, m1, syms) == Some(m2) && Step(c, m2, syms) == Some(m3)
    ensures Run([a, b, c], m, syms) == Some(m3)
  {
    hide Step;
    Run2(b, c, m1, syms);
    assert [a] + [b, c] == [a, b, c];
    RunCons(a, [b, c], m, syms);
  }

  lemma Run4(a: Item, b: Item, c: Item, d: Item, m: Machine, m1: Machine, m2: Machine, m3: Machine, m4: Machine,
             syms: Syms)
    requires Step(a, m, syms) == Some(m1) && Step(b, m1, syms) == Some(m2)
    requires Step(c, m2, syms) == Some(m3) && Step(d, m3, syms) == Some(m4)
    ensures Run([a, b, c, d], m, syms) == Some(m4)
  {
    hide Step;
    Run3(b, c, d, m1, m2, m3, m4, syms);
    assert [a] + [b, c, d] == [a, b, c, d];
    RunCons(a, [b, c, d], m, syms);
  }

  lemma PushWord(m: Machine, r: Reg, syms: Syms)
    requires m.regs[RSP] >= 8
    ensures Step(Ins(Instr.Push(r)), m, syms) == Some(PushValue(m, m.regs[r]))
    ensures var t := PushValue(m, m.regs[r]);
            && t.regs == m.regs[RSP := m.regs[RSP] - 8] && t.flags == m.flags
            && Load64(t.mem, m.regs[RSP] - 8) == m.regs[r]
            && SameOutside(m.mem, t.mem, m.regs[RSP] as int - 8, m.regs[RSP])
  {
    hide Load64, Store64;
    LoadStore64(m.mem, m.regs[RSP] - 8, m.regs[r]);
  }

  lemma PopWord(m: Machine, r: Reg, syms: Syms)
    requires m.regs[RSP] as int + 8 < TWO64 && r != RSP
    ensures Step(Ins(Instr.Pop(r)), m,
            syms) == Some(m.(regs := m.regs[RSP := m.regs[RSP] + 8][r := Load64(m.mem, m.regs[RSP])]))
  {
    hide Load64;
  }

  lemma Read32(m: Machine, d: Reg, b: Reg, disp: int, syms: Syms)
    requires 0 <= m.regs[b] + disp < TWO64
    ensures var v := Load(m.mem, m.regs[b] + disp, 4);
            v < TWO32 && Step(Ins(LoadI(W32, d, At(b, disp))), m, syms) == Some(m.Set(d, v))
  {
    FromLEBound(ReadBytes(m.mem, m.regs[b] + disp, 4));
    Pow256At();
    WrapSmall(m.regs[b] + disp);
  }

  lemma Read64(m: Machine, d: Reg, b: Reg, disp: int, syms: Syms)
    requires 0 <= m.regs[b] + disp < TWO64
    ensures Step(Ins(LoadI(W64, d, At(b, disp))), m, syms) == Some(m.Set(d, Load64(m.mem, m.regs[b] + disp)))
  {
    WrapSmall(m.regs[b] + disp);
  }

  lemma WrapSmall(x: int)
    requires 0 <= x < TWO64
    ensures Wrap(x) == x
  {
  }

  /** A machine whose flags alone are unspecified. */
  ghost predicate Same(m: Machine, regs: RegFile, mem: Mem) {
    m.regs == regs && m.mem == mem
  }

  lemma AddStep(m: Machine, d: Reg, v: nat, syms: Syms) returns (t: Machine)
    requires m.regs[d] as int + v < TWO64
    ensures Step(Ins(AluImm(ADD, d, v)), m, syms) == Some(t) && Same(t, m.regs[d := m.regs[d] + v], m.mem)
  {
    hide AluFlags;
    t := m.(flags := AluFlags(ADD, m.regs[d], Wrap(v))).Set(d, m.regs[d] + v);
  }

  lemma AndStep(m: Machine, d: Reg, s: Reg, v: Word, syms: Syms) returns (t: Machine)
    requires AluResult(AND, m.regs[d], m.regs[s]) == v
    ensures Step(Ins(Alu(AND, d, s)), m, syms) == Some(t) && Same(t, m.regs[d := v], m.mem)
  {
    hide AluFlags, AluResult;
    t := m.(flags := AluFlags(AND, m.regs[d], m.regs[s])).Set(d, v);
  }

  lemma StoreStep(m: Machine, b: Reg, disp: int, s: Reg, syms: Syms)
    requires 0 <= m.regs[b] + disp < TWO64
    ensures Step(Ins(StoreI(W64, At(b, disp), s)), m,
            syms) == Some(m.(mem := Store64(m.mem, m.regs[b] + disp, m.regs[s])))
  {
    hide Store;
    WrapSmall(m.regs[b] + disp);
  }

  lemma StoreStep32(m: Machine, b: Reg, disp: int, s: Reg, syms: Syms)
    requires 0 <= m.regs[b] + disp < TWO64
    ensures Step(Ins(StoreI(W32, At(b, disp), s)), m,
            syms) == Some(m.(mem := Store(m.mem, m.regs[b] + disp, 4, m.regs[s])))
  {
    hide Store;
    WrapSmall(m.regs[b] + disp);
  }

  lemma Cleared(m: Machine, syms: Syms) returns (t: Machine)
    ensures Run([Ins(Alu(XOR, RAX, RAX))], m, syms) == Some(t) && Same(t, m.regs[RAX := 0], m.mem)
  {
    hide AluFlags;
    XorSelf(m.regs[RAX]);
    t := m.(flags := AluFlags(XOR, m.regs[RAX], m.regs[RAX])).Set(RAX, 0);
    Run1(Ins(Alu(XOR, RAX, RAX)), m, syms);
  }

  lemma Word4(m: Mem, a: int, v: nat)
    requires v < TWO32
    ensures Load(Store(m, a, 4, v), a, 4) == v && SameOutside(m, Store(m, a, 4, v), a, a + 4)
  {
    LoadStoreSame(m, a, 4, v);
    Pow256At();
    SmallMod(v, TWO32);
    StoreFrame(m, a, 4, v);
  }

  // ---- registers saved around a sequence ----

  function Pushes(rs: seq<Reg>): seq<Item> {
    if rs == [] then [] else [Ins(Instr.Push(rs[0]))] + Pushes(rs[1..])
  }

  /** The pops that undo them, in reverse. */
  function Pops(rs: seq<Reg>): seq<Item> {
    if rs == [] then [] else Pops(rs[1..]) + [Ins(Instr.Pop(rs[0]))]
  }

  /** The words below the rsp of `m` hold its registers. */
  ghost predicate SavedRegs(mem: Mem, m: Machine, sp: int, rs: seq<Reg>) {
    forall i | 0 <= i < |rs| :: Load64(mem, sp - 8 * (i + 1)) == m.regs[rs[i]]
  }

  lemma {:induction false} PushesRun(rs: seq<Reg>, m: Machine, syms: Syms) returns (t: Machine)
    requires 8 * |rs| <= m.regs[RSP] && RSP !in rs
    ensures Run(Pushes(rs), m, syms) == Some(t) && t.flags == m.flags
    ensures t.regs == m.regs[RSP := m.regs[RSP] as int - 8 * |rs|]
    ensures SavedRegs(t.mem, m, m.regs[RSP], rs) &&
            SameOutside(m.mem, t.mem, m.regs[RSP] as int - 8 * |rs|, m.regs[RSP])
    decreases |rs|
  {
    hide Load64, PushValue, Run, Step;
    if rs == [] {
      t := m;
      RunNothing(m, syms);
    } else {
      var sp: int := m.regs[RSP];
      var m1 := PushValue(m, m.regs[rs[0]]);
      PushWord(m, rs[0], syms);
      t := PushesRun(rs[1..], m1, syms);
      RunCons(Ins(Instr.Push(rs[0])), Pushes(rs[1..]), m, syms);
      Load64Same(m1.mem, t.mem, sp - 8);
      forall i | 0 <= i < |rs|
        ensures Load64(t.mem, sp - 8 * (i + 1)) == m.regs[rs[i]]
      {
        if i > 0 {
          assert rs[1..][i - 1] == rs[i];
          assert Load64(t.mem, m1.regs[RSP] - 8 * (i - 1 + 1)) == m1.regs[rs[1..][i - 1]];
        }
      }
    }
  }

  lemma RunNothing(m: Machine, syms: Syms)
    ensures Run([], m, syms) == Some(m)
  {
  }

  predicate Different(rs: seq<Reg>) {
    forall i, j | 0 <= i < j < |rs| :: rs[i] != rs[j]
  }

  /** Popping them gives every register back, whatever happened to them in between. */
  lemma {:induction false} PopsRun(rs: seq<Reg>, m: Machine, was: Machine, syms: Syms) returns (t: Machine)
    requires 8 * |rs| <= was.regs[RSP] && m.regs[RSP] == was.regs[RSP] as int - 8 * |rs| && RSP !in rs && Different(rs)
    requires SavedRegs(m.mem, was, was.regs[RSP], rs)
    requires forall r: Reg | r !in rs && r != RSP :: m.regs[r] == was.regs[r]
    ensures Run(Pops(rs), m, syms) == Some(t) && t.mem == m.mem && t.regs == was.regs && t.flags == m.flags
    decreases |rs|
  {
    hide Load64, Run, Step;
    if rs == [] {
      t := m;
      RunNothing(m, syms);
      assert t.regs == was.regs;
    } else {
      var sp: int := was.regs[RSP];
      var was1 := was.(regs := was.regs[RSP := sp - 8][rs[0] := m.regs[rs[0]]]);
      InnerSaved(m.mem, was, was1, sp, rs);
      var t1 := PopsRun(rs[1..], m, was1, syms);
      PopWord(t1, rs[0], syms);
      assert Load64(m.mem, sp - 8 * (0 + 1)) == was.regs[rs[0]];
      t := t1.(regs := t1.regs[RSP := sp][rs[0] := was.regs[rs[0]]]);
      assert t.regs == was.regs;
      Run1(Ins(Instr.Pop(rs[0])), t1, syms);
      Then(Pops(rs[1..]), [Ins(Instr.Pop(rs[0]))], m, t1, syms);
    }
  }

  lemma InnerSaved(mem: Mem, was: Machine, was1: Machine, sp: int, rs: seq<Reg>)
    requires rs != [] && SavedRegs(mem, was, sp, rs) && Different(rs) && RSP !in rs
    requires forall r: Reg | r != RSP && r != rs[0] :: was1.regs[r] == was.regs[r]
    ensures SavedRegs(mem, was1, sp - 8, rs[1..]) && Different(rs[1..])
  {
    hide Load64;
    forall i | 0 <= i < |rs[1..]|
      ensures Load64(mem, sp - 8 - 8 * (i + 1)) == was1.regs[rs[1..][i]]
    {
      assert Load64(mem, sp - 8 * (i + 1 + 1)) == was.regs[rs[i + 1]];
      assert rs[0] != rs[i + 1];
    }
  }

  /** The saved words survive writes elsewhere. */
  lemma SavedAcross(a: Mem, b: Mem, m: Machine, sp: int, rs: seq<Reg>)
    requires SavedRegs(a, m, sp, rs) && SameIn(a, b, sp - 8 * |rs|, sp)
    ensures SavedRegs(b, m, sp, rs)
  {
    hide Load64;
    forall i | 0 <= i < |rs|
      ensures Load64(b, sp - 8 * (i + 1)) == m.regs[rs[i]]
    {
      Load64Same(a, b, sp - 8 * (i + 1));
    }
  }

  /** The same when other registers have changed: the saved ones and rsp come back, the others stay. */
  lemma PopsOver(rs: seq<Reg>, m: Machine, was: Machine, syms: Syms) returns (t: Machine)
    requires 8 * |rs| <= was.regs[RSP] && m.regs[RSP] == was.regs[RSP] as int - 8 * |rs| && RSP !in rs && Different(rs)
    requires SavedRegs(m.mem, was, was.regs[RSP], rs)
    ensures Run(Pops(rs), m, syms) == Some(t) && t.mem == m.mem && t.flags == m.flags
    ensures forall r: Reg :: t.regs[r] == if r in rs || r == RSP then was.regs[r] else m.regs[r]
  {
    hide Load64, Run;
    var regs := seq<Word>(16, i requires 0 <= i < 16 => if i in rs || i == RSP then was.regs[i] else m.regs[i]);
    var mix := was.(regs := regs);
    forall i | 0 <= i < |rs|
      ensures Load64(m.mem, mix.regs[RSP] - 8 * (i + 1)) == mix.regs[rs[i]]
    {
      assert rs[i] in rs;
    }
    t := PopsRun(rs, m, mix, syms);
  }

  // ---- bytes and counters ----

  lemma LoadByte(m: Mem, a: int)
    ensures Load(m, a, 1) == Rd(m, a)
  {
    var b := ReadBytes(m, a, 1);
    assert b[0] == Rd(m, a + 0) && b[1..] == [] && FromLE(b[1..]) == 0;
  }

  lemma StoreByte(m: Mem, a: int, v: nat)
    ensures Store(m, a, 1, v) == WriteBytes(m, a, [v % 256])
  {
    assert LE(v / 256, 0) == [] && LE(v, 1) == [v % 256] + LE(v / 256, 0) == [v % 256];
  }

  lemma Read8(m: Machine, d: Reg, b: Reg, syms: Syms)
    ensures Step(Ins(LoadI(W8, d, At(b, 0))), m, syms) == Some(m.Set(d, Rd(m.mem, m.regs[b])))
  {
    hide Load;
    LoadByte(m.mem, m.regs[b]);
  }

  lemma Write8(m: Machine, b: Reg, s: Reg, syms: Syms)
    ensures Step(Ins(StoreI(W8, At(b, 0), s)), m,
            syms) == Some(m.(mem := WriteBytes(m.mem, m.regs[b], [m.regs[s] % 256])))
  {
    hide Store, WriteBytes, LE;
    StoreByte(m.mem, m.regs[b], m.regs[s]);
  }

  /** `test r, r` tells whether r is zero. */
  lemma TestRuns(m: Machine, r: Reg, syms: Syms) returns (t: Machine)
    ensures Step(Ins(Alu(TEST, r, r)), m, syms) == Some(t) && Same(t, m.regs, m.mem)
    ensures Holds(4, t.flags) == Some(m.regs[r] == 0) && Holds(5, t.flags) == Some(m.regs[r] != 0)
  {
    AndSelf(m.regs[r]);
    t := m.(flags := AluFlags(TEST, m.regs[r], m.regs[r]));
  }

  lemma SubStep(m: Machine, d: Reg, v: nat, syms: Syms) returns (t: Machine)
    requires m.regs[d] >= v && v < TWO64
    ensures Step(Ins(AluImm(SUB, d, v)), m, syms) == Some(t) && Same(t, m.regs[d := m.regs[d] - v], m.mem)
  {
    hide AluFlags;
    t := m.(flags := AluFlags(SUB, m.regs[d], Wrap(v))).Set(d, m.regs[d] - v);
  }

  lemma ClearedReg(m: Machine, d: Reg, syms: Syms) returns (t: Machine)
    ensures Step(Ins(Alu(XOR, d, d)), m, syms) == Some(t) && Same(t, m.regs[d := 0], m.mem)
  {
    hide AluFlags;
    XorSelf(m.regs[d]);
    t := m.(flags := AluFlags(XOR, m.regs[d], m.regs[d])).Set(d, 0);
  }

  lemma MoveStep(m: Machine, d: Reg, r: Reg, syms: Syms)
    ensures Step(Ins(MovRR(d, r)), m, syms) == Some(m.Set(d, m.regs[r]))
  {
  }

  lemma ImmStep(m: Machine, d: Reg, v: Word, syms: Syms)
    ensures Step(Ins(MovImm(d, v)), m, syms) == Some(m.Set(d, v))
  {
  }
}
