/** The instructions emitted for `ramfs_get`, both loops included, and the three statements as operations on a list. */
module RamfsGet {
  import opened Wrappers
  import opened Words
  import opened Memory
  import opened Regs
  import opened Isa
  import opened Assembly
  import opened Ast
  import opened Codegen
  import opened Semantics
  import opened ExprProofs
  import opened StmtProofs
  import opened SourceLanguage
  import opened MachineSteps
  import opened Flow
  import opened Ramfs
  import opened RamfsCode

  // ---- one pair of bytes ----

  const PAIR: seq<Item> := [Load8(RAX, RSI), Load8(RDX, RDI), Ins(Alu(CMP, RAX, RDX))]
  const ADVANCE: seq<Item> :=
    [Ins(AluImm(ADD, RSI, 1)), Ins(AluImm(ADD, RDI, 1)), Ins(AluImm(SUB, R14, 1)), Test(R14)]

  lemma CompareRuns(m: Machine, syms: Syms) returns (t: Machine)
    ensures Step(Ins(Alu(CMP, RAX, RDX)), m, syms) == Some(t) && Same(t, m.regs, m.mem)
    ensures Holds(NEQ, t.flags) == Some(m.regs[RAX] != m.regs[RDX])
  {
    t := m.(flags := AluFlags(CMP, m.regs[RAX], m.regs[RDX]));
  }

  lemma PairRuns(m: Machine, syms: Syms) returns (t: Machine)
    ensures var a, b := Rd(m.mem, m.regs[RSI]), Rd(m.mem, m.regs[RDI]);
            && Run(PAIR, m, syms) == Some(t) && Same(t, m.regs[RAX := a][RDX := b], m.mem)
            && Holds(NEQ, t.flags) == Some(a != b)
  {
    hide Run, Holds, Step;
    Read8(m, RAX, RSI, syms);
    var m1 := m.Set(RAX, Rd(m.mem, m.regs[RSI]));
    Read8(m1, RDX, RDI, syms);
    var m2 := m1.Set(RDX, Rd(m.mem, m.regs[RDI]));
    t := CompareRuns(m2, syms);
    Run3(PAIR[0], PAIR[1], PAIR[2], m, m1, m2, t, syms);
  }

  lemma TestRaxRuns(m: Machine, syms: Syms) returns (t: Machine)
    ensures Run([Test(RAX)], m, syms) == Some(t) && Same(t, m.regs, m.mem) &&
            Holds(EQ, t.flags) == Some(m.regs[RAX] == 0)
  {
    hide Run, Holds, Step;
    t := TestRuns(m, RAX, syms);
    Run1(Test(RAX), m, syms);
  }

  lemma AdvanceRuns(m: Machine, syms: Syms) returns (t: Machine)
    requires m.regs[RSI] as int + 1 < TWO64 && m.regs[RDI] as int + 1 < TWO64 && m.regs[R14] >= 1
    ensures Run(ADVANCE, m, syms) == Some(t)
    ensures Same(t, m.regs[RSI := m.regs[RSI] + 1][RDI := m.regs[RDI] + 1][R14 := m.regs[R14] - 1], m.mem)
    ensures Holds(NEQ, t.flags) == Some(m.regs[R14] != 1)
  {
    hide Run, Holds, Step, AluFlags;
    var m1 := AddStep(m, RSI, 1, syms);
    var m2 := AddStep(m1, RDI, 1, syms);
    var m3 := SubStep(m2, R14, 1, syms);
    t := TestRuns(m3, R14, syms);
    Run4(ADVANCE[0], ADVANCE[1], ADVANCE[2], ADVANCE[3], m, m1, m2, m3, t, syms);
  }

  // ---- the comparison of one name ----

  function CompareCode(cmpl: string, ne: string, ok: string): seq<Item> {
    [Lab(cmpl)] +
      (PAIR + ([JccTo(NEQ, ne)] + ([Test(RAX)] + ([JccTo(EQ, ok)] + (ADVANCE + ([JccTo(NEQ, cmpl)] + [JmpTo(ok)]))))))
  }

  /** The comparison stands at `p`, with its two ways out. */
  ghost predicate CompareStands(x: Listing, p: nat, cmpl: string, ne: string, ok: string, pn: nat, po: nat) {
    && Unique(x.items) && Stands(x, p, CompareCode(cmpl, ne, ok))
    && pn < |x.items| && x.items[pn] == Lab(ne) && po < |x.items| && x.items[po] == Lab(ok)
  }

  lemma CompareParts(x: Listing, p: nat, cmpl: string, ne: string, ok: string)
    requires Stands(x, p, CompareCode(cmpl, ne, ok))
    ensures p < |x.items| && x.items[p] == Lab(cmpl) && Stands(x, p, [Lab(cmpl)])
    ensures Stands(x, p + 1, PAIR) && Stands(x, p + 4, [JccTo(NEQ, ne)]) && Stands(x, p + 5, [Test(RAX)])
    ensures Stands(x, p + 6, [JccTo(EQ, ok)]) && Stands(x, p + 7, ADVANCE)
    ensures Stands(x, p + 11, [JccTo(NEQ, cmpl)]) && Stands(x, p + 12, [JmpTo(ok)])
  {
    hide Stands;
    var l6 := [JccTo(NEQ, cmpl)] + [JmpTo(ok)];
    var l5 := ADVANCE + l6;
    var l4 := [JccTo(EQ, ok)] + l5;
    var l3 := [Test(RAX)] + l4;
    var l2 := [JccTo(NEQ, ne)] + l3;
    StandsPart(x, p, [Lab(cmpl)], PAIR + l2);
    StandsItem(x, p, Lab(cmpl));
    StandsPart(x, p + 1, PAIR, l2);
    StandsPart(x, p + 4, [JccTo(NEQ, ne)], l3);
    StandsPart(x, p + 5, [Test(RAX)], l4);
    StandsPart(x, p + 6, [JccTo(EQ, ok)], l5);
    StandsPart(x, p + 7, ADVANCE, l6);
    StandsPart(x, p + 11, [JccTo(NEQ, cmpl)], [JmpTo(ok)]);
  }

  /** From the two bytes to their tests: out at a difference, out at a common NUL, else on. */
  lemma PairTurn(x: Listing, p: nat, cmpl: string, ne: string, ok: string, pn: nat, po: nat, m: Machine,
                 syms: Syms) returns (t: Machine)
    requires CompareStands(x, p, cmpl, ne, ok, pn, po)
    ensures var a, b := Rd(m.mem, m.regs[RSI]), Rd(m.mem, m.regs[RDI]);
            && Reaches(x, Spot(p + 1, m), Spot(if a != b then pn + 1 else if a == 0 then po + 1 else p + 7, t), syms)
            && Same(t, m.regs[RAX := a][RDX := b], m.mem)
  {
    hide Run, Holds, Stands, Unique, Reaches;
    CompareParts(x, p, cmpl, ne, ok);
    var m1 := PairRuns(m, syms);
    var differ := Rd(m.mem, m.regs[RSI]) != Rd(m.mem, m.regs[RDI]);
    ReachRun(x, p + 1, PAIR, m, m1, syms);
    ReachBranch(x, p + 4, NEQ, ne, pn, m1, differ, syms);
    ReachTrans(x, Spot(p + 1, m), Spot(p + 4, m1), Spot(if differ then pn + 1 else p + 5, m1), syms);
    t := m1;
    if !differ {
      t := TestRaxRuns(m1, syms);
      var end := Rd(m.mem, m.regs[RSI]) == 0;
      ReachRun(x, p + 5, [Test(RAX)], m1, t, syms);
      ReachBranch(x, p + 6, EQ, ok, po, t, end, syms);
      ReachTrans(x, Spot(p + 1, m), Spot(p + 5, m1), Spot(p + 6, t), syms);
      ReachTrans(x, Spot(p + 1, m), Spot(p + 6, t), Spot(if end then po + 1 else p + 7, t), syms);
    }
  }

  /** One turn of the comparison, from behind its label. */
  lemma CompareTurn(x: Listing, p: nat, cmpl: string, ne: string, ok: string, pn: nat, po: nat, m: Machine,
                    syms: Syms) returns (t: Machine)
    requires CompareStands(x, p, cmpl, ne, ok, pn, po)
    requires m.regs[RSI] as int + 1 < TWO64 && m.regs[RDI] as int + 1 < TWO64 && m.regs[R14] >= 1
    ensures var a, b := Rd(m.mem, m.regs[RSI]), Rd(m.mem, m.regs[RDI]);
            var on := a == b && a != 0;
            && Reaches(x, Spot(p + 1, m),
                 Spot(if a != b then pn + 1 else if on && m.regs[R14] != 1 then p + 1 else po + 1, t), syms)
            && (on ==>
                 t.regs == m.regs[RAX := a][RDX := b][RSI := m.regs[RSI] + 1][RDI := m.regs[RDI] + 1]
                                 [R14 := m.regs[R14] - 1])
            && (!on ==> t.regs == m.regs[RAX := a][RDX := b]) && t.mem == m.mem
  {
    hide Run, Holds, Stands, Unique, Reaches;
    t := PairTurn(x, p, cmpl, ne, ok, pn, po, m, syms);
    var a, b := Rd(m.mem, m.regs[RSI]), Rd(m.mem, m.regs[RDI]);
    if a == b && a != 0 {
      CompareParts(x, p, cmpl, ne, ok);
      var m1 := t;
      t := AdvanceRuns(m1, syms);
      ReachRun(x, p + 7, ADVANCE, m1, t, syms);
      ReachTrans(x, Spot(p + 1, m), Spot(p + 7, m1), Spot(p + 11, t), syms);
      LoopEnd(x, p + 11, p, cmpl, ok, po, m, t, p + 1, m.regs[R14] != 1, syms);
    }
  }

  /** The registers a comparison leaves alone. */
  ghost predicate Compared(m: Machine, t: Machine) {
    t.mem == m.mem && forall q: Reg | q !in {RAX, RDX, RSI, RDI, R14} :: t.regs[q] == m.regs[q]
  }

  /** The sixteen bytes of the name being looked up. */
  ghost predicate LookedUp(m: Mem, nm: int, name: seq<Byte>) {
    |name| == NAME_SIZE && Holds8(m, nm, name) && 0 <= nm && nm + NAME_SIZE < TWO64
  }

  /** The comparison goes to `ok` exactly when the names compare equal, else to `ne`. */
  lemma {:induction false} CompareReaches(x: Listing, p: nat, cmpl: string, ne: string, ok: string, pn: nat, po: nat,
                                          m: Machine,
                                          base: int, s: seq<Byte>, at: nat, nm: int, name: seq<Byte>, j: nat,
                                          syms: Syms) returns (t: Machine)
    requires CompareStands(x, p, cmpl, ne, ok, pn, po) && Holds8(m.mem, base, s) && base + |s| < TWO64 && 0 <= base
    requires at + NAME_SIZE <= |s| && LookedUp(m.mem, nm, name) && j < NAME_SIZE && NulFree(name[..j])
    requires m.regs[RSI] == base + at + j && m.regs[RDI] == nm + j && m.regs[R14] == NAME_SIZE - j
    ensures Terminated(name) &&
            Reaches(x, Spot(p + 1, m), Spot(if SameName(s, at, name, j) then po + 1 else pn + 1, t), syms)
    ensures Compared(m, t)
    decreases NAME_SIZE - j
  {
    hide CompareStands, Reaches;
    assert Rd(m.mem, base + (at + j)) == s[at + j] && Rd(m.mem, nm + j) == name[j];
    t := CompareTurn(x, p, cmpl, ne, ok, pn, po, m, syms);
    if s[at + j] == name[j] && name[j] != 0 {
      OneMore(name, j);
      if j < NAME_SIZE - 1 {
        var m1 := t;
        t := CompareReaches(x, p, cmpl, ne, ok, pn, po, m1, base, s, at, nm, name, j + 1, syms);
        ReachTrans(x, Spot(p + 1, m), Spot(p + 1, m1), Spot(if SameName(s, at, name, j + 1) then po + 1 else pn + 1, t),
          syms);
      } else {
        assert SameName(s, at, name, NAME_SIZE);
      }
    }
  }

  // ---- the search for the name ----

  const START_SLOT: seq<Item> := [Ins(MovRR(RSI, R13)), Ins(MovRR(RDI, R12)), Ins(MovImm(R14, 16))]
  const NEXT_ENTRY: seq<Item> := [Ins(AluImm(ADD, R13, 32)), Ins(AluImm(SUB, RCX, 1)), Test(RCX)]

  datatype Labels = Labels(loop: string, cmpl: string, ne: string, ok: string, fail: string, done: string)

  function LookupCode(l: Labels): seq<Item> {
    [Lab(l.loop)] + (START_SLOT + (CompareCode(l.cmpl, l.ne, l.ok) +
      ([Lab(l.ne)] + (NEXT_ENTRY + ([JccTo(NEQ, l.loop)] + [JmpTo(l.fail)])))))
  }

  /** The search stands at `p`, with its two ways out. */
  ghost predicate LookupStands(x: Listing, p: nat, l: Labels, po: nat, pf: nat) {
    && Unique(x.items) && Stands(x, p, LookupCode(l))
    && po < |x.items| && x.items[po] == Lab(l.ok) && pf < |x.items| && x.items[pf] == Lab(l.fail)
  }

  lemma LookupParts(x: Listing, p: nat, l: Labels, po: nat, pf: nat)
    requires LookupStands(x, p, l, po, pf)
    ensures p < |x.items| && x.items[p] == Lab(l.loop) && Stands(x, p, [Lab(l.loop)]) && Stands(x, p + 1, START_SLOT)
    ensures CompareStands(x, p + 4, l.cmpl, l.ne, l.ok, p + 17, po) && Stands(x, p + 4, [Lab(l.cmpl)]) &&
            Stands(x, p + 18, NEXT_ENTRY)
    ensures Stands(x, p + 21, [JccTo(NEQ, l.loop)]) && Stands(x, p + 22, [JmpTo(l.fail)])
  {
    hide Stands, Unique;
    var compare := CompareCode(l.cmpl, l.ne, l.ok);
    var l5 := [JccTo(NEQ, l.loop)] + [JmpTo(l.fail)];
    var l4 := NEXT_ENTRY + l5;
    var l3 := [Lab(l.ne)] + l4;
    StandsPart(x, p, [Lab(l.loop)], START_SLOT + (compare + l3));
    StandsItem(x, p, Lab(l.loop));
    StandsPart(x, p + 1, START_SLOT, compare + l3);
    StandsPart(x, p + 4, compare, l3);
    CompareParts(x, p + 4, l.cmpl, l.ne, l.ok);
    assert |compare| == 13;
    StandsPart(x, p + 17, [Lab(l.ne)], l4);
    StandsItem(x, p + 17, Lab(l.ne));
    StandsPart(x, p + 18, NEXT_ENTRY, l5);
    StandsPart(x, p + 21, [JccTo(NEQ, l.loop)], [JmpTo(l.fail)]);
  }

  lemma StartRuns(m: Machine, syms: Syms) returns (t: Machine)
    ensures Run(START_SLOT, m, syms) == Some(t) &&
            Same(t, m.regs[RSI := m.regs[R13]][RDI := m.regs[R12]][R14 := 16], m.mem)
  {
    hide Run, Step;
    var m1 := m.Set(RSI, m.regs[R13]);
    var m2 := m1.Set(RDI, m.regs[R12]);
    t := m2.Set(R14, 16);
    MoveStep(m, RSI, R13, syms);
    MoveStep(m1, RDI, R12, syms);
    ImmStep(m2, R14, 16, syms);
    Run3(START_SLOT[0], START_SLOT[1], START_SLOT[2], m, m1, m2, t, syms);
  }

  lemma NextEntryRuns(m: Machine, syms: Syms) returns (t: Machine)
    requires m.regs[R13] as int + 32 < TWO64 && m.regs[RCX] >= 1
    ensures Run(NEXT_ENTRY, m, syms) == Some(t) &&
            Same(t, m.regs[R13 := m.regs[R13] + 32][RCX := m.regs[RCX] - 1], m.mem)
    ensures Holds(NEQ, t.flags) == Some(m.regs[RCX] != 1)
  {
    hide Run, Holds, Step, AluFlags;
    var m1 := AddStep(m, R13, 32, syms);
    var m2 := SubStep(m1, RCX, 1, syms);
    t := TestRuns(m2, RCX, syms);
    Run3(NEXT_ENTRY[0], NEXT_ENTRY[1], NEXT_ENTRY[2], m, m1, m2, t, syms);
  }

  /** What a search leaves alone: memory, and every register but its own. */
  ghost predicate Searched(m: Machine, t: Machine) {
    t.mem == m.mem && forall q: Reg | q !in {RAX, RDX, RCX, RSI, RDI, R13, R14} :: t.regs[q] == m.regs[q]
  }

  /** The comparison of slot k. */
  lemma SlotReaches(x: Listing, p: nat, l: Labels, po: nat, pf: nat, m: Machine, base: int, s: seq<Byte>,
                    name: seq<Byte>, k: nat, syms: Syms)
    returns (t: Machine)
    requires LookupStands(x, p, l, po, pf) && k < SLOTS && Holds8(m.mem, base, s) && |s| == TABLE_SIZE
    requires 0 <= base && base + TABLE_SIZE < TWO64 && LookedUp(m.mem, m.regs[R12], name) &&
             m.regs[R13] == base + SLOT_SIZE * k
    ensures Terminated(name)
    ensures Reaches(x, Spot(p + 1, m), Spot(if SameName(s, SLOT_SIZE * k, name, 0) then po + 1 else p + 18, t), syms)
    ensures Compared(m, t)
  {
    hide Run, Stands, Unique, Reaches, CompareStands, LookupStands, SameName, Terminated;
    LookupParts(x, p, l, po, pf);
    var m1 := StartRuns(m, syms);
    ReachRun(x, p + 1, START_SLOT, m, m1, syms);
    LabelRuns(l.cmpl, m1, syms);
    ReachRun(x, p + 4, [Lab(l.cmpl)], m1, m1, syms);
    EmptyNulFree(name);
    t := CompareReaches(x, p + 4, l.cmpl, l.ne, l.ok, p + 17, po, m1, base, s, SLOT_SIZE * k, m.regs[R12], name, 0,
      syms);
    ReachTrans(x, Spot(p + 1, m), Spot(p + 4, m1), Spot(p + 5, m1), syms);
    ReachTrans(x, Spot(p + 1, m), Spot(p + 5, m1),
      Spot(if SameName(s, SLOT_SIZE * k, name, 0) then po + 1 else p + 18, t), syms);
  }

  /** From behind the label of a difference to the next slot, or out. */
  lemma EntryEnd(x: Listing, p: nat, l: Labels, po: nat, pf: nat, m: Machine, m1: Machine,
                 syms: Syms) returns (t: Machine)
    requires LookupStands(x, p, l, po, pf) && Reaches(x, Spot(p + 1, m), Spot(p + 18, m1), syms)
    requires m1.regs[R13] as int + 32 < TWO64 && m1.regs[RCX] >= 1
    ensures Reaches(x, Spot(p + 1, m), Spot(if m1.regs[RCX] != 1 then p + 1 else pf + 1, t), syms)
    ensures Same(t, m1.regs[R13 := m1.regs[R13] + 32][RCX := m1.regs[RCX] - 1], m1.mem)
  {
    hide Run, Holds, Stands, Unique, Reaches, CompareStands;
    LookupParts(x, p, l, po, pf);
    t := NextEntryRuns(m1, syms);
    ReachRun(x, p + 18, NEXT_ENTRY, m1, t, syms);
    ReachTrans(x, Spot(p + 1, m), Spot(p + 18, m1), Spot(p + 21, t), syms);
    LoopEnd(x, p + 21, p, l.loop, l.fail, pf, m, t, p + 1, m1.regs[RCX] != 1, syms);
  }

  /** The search stops at the first slot that compares equal, or behind the table. */
  lemma {:induction false} LookupReaches(x: Listing, p: nat, l: Labels, po: nat, pf: nat, m: Machine, base: int,
                                         s: seq<Byte>, name: seq<Byte>,
                                         k: nat, syms: Syms) returns (t: Machine)
    requires LookupStands(x, p, l, po, pf) && k < SLOTS && Holds8(m.mem, base, s) && |s| == TABLE_SIZE
    requires 0 <= base && base + TABLE_SIZE < TWO64 && LookedUp(m.mem, m.regs[R12], name)
    requires m.regs[R13] == base + SLOT_SIZE * k && m.regs[RCX] == SLOTS - k
    ensures Terminated(name)
    ensures var r := FirstMatch(s, name, k);
            Reaches(x, Spot(p + 1, m), Spot(if r < SLOTS then po + 1 else pf + 1, t), syms) &&
              t.regs[R13] == base + SLOT_SIZE * r
    ensures Searched(m, t)
    decreases SLOTS - k
  {
    hide LookupStands, Reaches, SameName, Terminated;
    var m1 := SlotReaches(x, p, l, po, pf, m, base, s, name, k, syms);
    t := m1;
    if !SameName(s, SLOT_SIZE * k, name, 0) {
      var m2 := EntryEnd(x, p, l, po, pf, m, m1, syms);
      t := m2;
      if k < SLOTS - 1 {
        t := LookupReaches(x, p, l, po, pf, m2, base, s, name, k + 1, syms);
        ReachTrans(x, Spot(p + 1, m), Spot(p + 1, m2),
          Spot(if FirstMatch(s, name, k + 1) < SLOTS then po + 1 else pf + 1, t), syms);
      } else {
        assert FirstMatch(s, name, SLOTS) == SLOTS;
      }
    }
  }

  // ---- the answer ----

  function AnswerCode(dest: Reg, l: Labels): seq<Item> {
    [Lab(l.ok)] +
      ([Ins(LoadI(W64, dest, At(R13, 16)))] +
      ([JmpTo(l.done)] + ([Lab(l.fail)] + ([Ins(Alu(XOR, dest, dest))] + [Lab(l.done)]))))
  }

  lemma AnswerParts(x: Listing, p: nat, dest: Reg, l: Labels)
    requires Stands(x, p, AnswerCode(dest, l))
    ensures p + 5 < |x.items| && x.items[p] == Lab(l.ok) && x.items[p + 3] == Lab(l.fail) &&
            x.items[p + 5] == Lab(l.done)
    ensures Stands(x, p + 1, [Ins(LoadI(W64, dest, At(R13, 16)))]) && Stands(x, p + 2, [JmpTo(l.done)])
    ensures Stands(x, p + 4, [Ins(Alu(XOR, dest, dest))]) && Stands(x, p + 5, [Lab(l.done)])
  {
    hide Stands;
    var l4 := [Ins(Alu(XOR, dest, dest))] + [Lab(l.done)];
    var l3 := [Lab(l.fail)] + l4;
    var l2 := [JmpTo(l.done)] + l3;
    StandsPart(x, p, [Lab(l.ok)], [Ins(LoadI(W64, dest, At(R13, 16)))] + l2);
    StandsItem(x, p, Lab(l.ok));
    StandsPart(x, p + 1, [Ins(LoadI(W64, dest, At(R13, 16)))], l2);
    StandsPart(x, p + 2, [JmpTo(l.done)], l3);
    StandsPart(x, p + 3, [Lab(l.fail)], l4);
    StandsItem(x, p + 3, Lab(l.fail));
    StandsPart(x, p + 4, [Ins(Alu(XOR, dest, dest))], [Lab(l.done)]);
    StandsItem(x, p + 5, Lab(l.done));
  }

  /** A word of the byte string is the word loaded at its address. */
  lemma WordLoaded(m: Mem, base: int, s: seq<Byte>, at: nat)
    requires Holds8(m, base, s) && at + 8 <= |s|
    ensures Load64(m, base + at) == WordAt(s, at)
  {
    var b := ReadBytes(m, base + at, 8);
    forall i | 0 <= i < 8
      ensures b[i] == s[at..at + 8][i]
    {
      assert Rd(m, base + (at + i)) == s[at + i];
    }
    assert b == s[at..at + 8];
  }

  /** From a match, or its absence, to the end: the word at offset 16 of the slot, or 0. */
  lemma AnswerReaches(x: Listing, p: nat, dest: Reg, l: Labels, m: Machine, base: int, s: seq<Byte>, k: nat,
                      syms: Syms) returns (t: Machine)
    requires Unique(x.items) && Stands(x, p, AnswerCode(dest, l)) && k <= SLOTS && Holds8(m.mem, base, s) &&
             |s| == TABLE_SIZE
    requires 0 <= base && base + TABLE_SIZE < TWO64 && (k < SLOTS ==> m.regs[R13] == base + SLOT_SIZE * k)
    ensures Reaches(x, Spot(if k < SLOTS then p + 1 else p + 4, m), Spot(p + 6, t), syms)
    ensures Same(t, m.regs[dest := if k < SLOTS then WordAt(s, SLOT_SIZE * k + NAME_SIZE) else 0], m.mem)
  {
    hide Run, Stands, Unique, Reaches, Load64, WordAt;
    AnswerParts(x, p, dest, l);
    if k < SLOTS {
      WordLoaded(m.mem, base, s, SLOT_SIZE * k + NAME_SIZE);
      Read64(m, dest, R13, 16, syms);
      t := m.Set(dest, Load64(m.mem, m.regs[R13] as int + 16));
      hide Step;
      Run1(Ins(LoadI(W64, dest, At(R13, 16))), m, syms);
      ReachRun(x, p + 1, [Ins(LoadI(W64, dest, At(R13, 16)))], m, t, syms);
      ReachJump(x, p + 2, l.done, p + 5, t, syms);
      ReachTrans(x, Spot(p + 1, m), Spot(p + 2, t), Spot(p + 6, t), syms);
    } else {
      t := ClearedReg(m, dest, syms);
      hide Step;
      Run1(Ins(Alu(XOR, dest, dest)), m, syms);
      ReachRun(x, p + 4, [Ins(Alu(XOR, dest, dest))], m, t, syms);
      LabelRuns(l.done, t, syms);
      ReachRun(x, p + 5, [Lab(l.done)], t, t, syms);
      ReachTrans(x, Spot(p + 4, m), Spot(p + 5, t), Spot(p + 6, t), syms);
    }
  }

  // ---- the whole get ----

  const GET_ENTER: seq<Item> := [LeaTo(R13, TABLE), Ins(MovImm(RCX, 8))]

  function GetLoops(dest: Reg, l: Labels): seq<Item> {
    GET_ENTER + (LookupCode(l) + AnswerCode(dest, l))
  }

  function GetCode(dest: Reg, l: Labels, name: Expr, c: Ctx): seq<Item>
    requires ExprCode(name, R12, c).Some?
  {
    (Pushes(PUT_REGS) + ExprCode(name, R12, c).value) + (GetLoops(dest, l) + Pops(PUT_REGS))
  }

  lemma GetEnterRuns(m: Machine, base: int, syms: Syms) returns (t: Machine)
    requires TABLE in syms && syms[TABLE] == base
    ensures Run(GET_ENTER, m, syms) == Some(t) && t == m.(regs := m.regs[R13 := base][RCX := 8])
  {
    hide Run;
    var m1 := m.Set(R13, base);
    t := m1.Set(RCX, 8);
    assert Step(LeaTo(R13, TABLE), m, syms) == Some(m1) && Step(Ins(MovImm(RCX, 8)), m1, syms) == Some(t);
    hide Step;
    Run2(GET_ENTER[0], GET_ENTER[1], m, syms);
  }

  lemma GetParts(x: Listing, p: nat, dest: Reg, l: Labels)
    requires Unique(x.items) && Stands(x, p, GetLoops(dest, l))
    ensures Stands(x, p, GET_ENTER) && LookupStands(x, p + 2, l, p + 25, p + 28) &&
            Stands(x, p + 25, AnswerCode(dest, l))
    ensures Stands(x, p + 2, [Lab(l.loop)])
  {
    hide Stands, Unique;
    assert |LookupCode(l)| == 23;
    StandsPart(x, p, GET_ENTER, LookupCode(l) + AnswerCode(dest, l));
    StandsPart(x, p + 2, LookupCode(l), AnswerCode(dest, l));
    AnswerParts(x, p + 25, dest, l);
    LookupParts(x, p + 2, l, p + 25, p + 28);
  }

  /** Search and answer, from the table's address on. Only the 256 bytes of the table and the 16 of the name matter. */
  lemma GetLoopsReach(x: Listing, p: nat, dest: Reg, l: Labels, m: Machine, base: int, s: seq<Byte>, name: seq<Byte>,
                      syms: Syms) returns (t: Machine)
    requires Unique(x.items) && Stands(x, p, GetLoops(dest, l)) && TABLE in syms && syms[TABLE] == base
    requires 0 <= base && base + TABLE_SIZE < TWO64 && |s| == TABLE_SIZE && Holds8(m.mem, base, s) &&
             LookedUp(m.mem, m.regs[R12], name)
    ensures Terminated(name) && Reaches(x, Spot(p, m), Spot(p + 31, t), syms) && t.mem == m.mem &&
            t.regs[dest] == GetSpec(s, name)
    ensures forall q: Reg | q !in {RAX, RCX, RDX, RSI, RDI, R13, R14, dest} :: t.regs[q] == m.regs[q]
  {
    hide Run, Stands, Unique, Reaches, LookupStands, FirstMatch, Terminated, WordAt;
    GetParts(x, p, dest, l);
    var m1 := GetEnterRuns(m, base, syms);
    ReachRun(x, p, GET_ENTER, m, m1, syms);
    LabelRuns(l.loop, m1, syms);
    ReachRun(x, p + 2, [Lab(l.loop)], m1, m1, syms);
    var m2 := LookupReaches(x, p + 2, l, p + 25, p + 28, m1, base, s, name, 0, syms);
    var k := FirstMatch(s, name, 0);
    var mid := if k < SLOTS then p + 26 else p + 29;
    t := AnswerReaches(x, p + 25, dest, l, m2, base, s, k, syms);
    ReachTrans(x, Spot(p, m), Spot(p + 2, m1), Spot(p + 3, m1), syms);
    ReachTrans(x, Spot(p, m), Spot(p + 3, m1), Spot(mid, m2), syms);
    ReachTrans(x, Spot(p, m), Spot(mid, m2), Spot(p + 31, t), syms);
  }

  /** The registers saved and the name's address in r12. */
  lemma NameRuns(name: Expr, c: Ctx, m: Machine, syms: Syms) returns (t: Machine)
    requires WellFormed(c) && ExprCode(name, R12, c).Some? && 24 + 8 * Depth(name) <= m.regs[RSP] &&
             Readable(name, c, m, m.regs[RSP], syms)
    ensures Run(Pushes(PUT_REGS) + ExprCode(name, R12, c).value, m, syms) == Some(t)
    ensures t.regs[R12] == Seen(name, m.regs[R12], c, m, syms) && t.regs[RSP] == m.regs[RSP] as int - 24
    ensures forall q: Reg | q !in {R11, R12, RSP} :: t.regs[q] == m.regs[q]
    ensures !Compound(name) ==> t.regs[R11] == m.regs[R11]
    ensures SavedRegs(t.mem, m, m.regs[RSP], PUT_REGS)
    ensures SameOutside(m.mem, t.mem, m.regs[RSP] as int - 24 - 8 * Depth(name), m.regs[RSP])
  {
    hide Run, Seen, R12After, Readable, ExprCode, Depth, WellFormed, Compound, Pushes, SavedRegs;
    var m1 := PushesRun(PUT_REGS, m, syms);
    t := OperandRuns(name, R12, c, m, m1, m.regs[RSP], syms);
    SavedAcross(m1.mem, t.mem, m, m.regs[RSP], PUT_REGS);
    Then(Pushes(PUT_REGS), ExprCode(name, R12, c).value, m, m1, syms);
  }

  lemma GetLength(dest: Reg, l: Labels)
    ensures |GetLoops(dest, l)| == 31
  {
  }

  /** `ramfs_get`, for any operand and any destination: where its items stand, execution reaches their end. The pointer
      the specification gives for the value the code sees is in the destination unless that is r12, r13 or r14: those
      are popped over it and keep what they held. Nothing is written but dead stack words; rax, rcx, rdx, rsi and rdi
      are scratch, r11 too for a compound operand, and every other register is kept. */
  lemma GetReaches(x: Listing, pc: nat, dest: Reg, l: Labels, name: Expr, c: Ctx, m: Machine, base: int, s: seq<Byte>,
                   bytes: seq<Byte>, syms: Syms)
    returns (t: Machine)
    requires WellFormed(c) && ExprCode(name, R12, c).Some? && Unique(x.items) &&
             Stands(x, pc, GetCode(dest, l, name, c)) && dest != RSP
    requires 24 + 8 * Depth(name) <= m.regs[RSP] && Readable(name, c, m, m.regs[RSP], syms)
    requires TABLE in syms && syms[TABLE] == base && 0 <= base && base + TABLE_SIZE < TWO64 && |s| == TABLE_SIZE &&
             Holds8(m.mem, base, s)
    requires LookedUp(m.mem, Seen(name, m.regs[R12], c, m, syms), bytes)
    requires var nm, lo := Seen(name, m.regs[R12], c, m, syms) as int, m.regs[RSP] as int - 24 - 8 * Depth(name);
             && (base + TABLE_SIZE <= lo || m.regs[RSP] <= base) && (nm + NAME_SIZE <= lo || m.regs[RSP] <= nm)
    ensures Terminated(bytes) && Reaches(x, Spot(pc, m), Spot(pc + |GetCode(dest, l, name, c)|, t), syms)
    ensures t.regs[dest] == if dest in {R12, R13, R14} then m.regs[dest] else GetSpec(s, bytes)
    ensures forall q: Reg | q !in {RAX, RCX, RDX, RSI, RDI, R11, dest} :: t.regs[q] == m.regs[q]
    ensures !Compound(name) && dest != R11 ==> t.regs[R11] == m.regs[R11]
    ensures SameOutside(m.mem, t.mem, m.regs[RSP] as int - 24 - 8 * Depth(name), m.regs[RSP])
  {
    hide Run, Seen, Readable, ExprCode, GetLoops, Depth, WellFormed, Compound, Pushes, Pops, SavedRegs, Stands, Unique,
      Reaches, GetSpec, Terminated;
    var head, loops := Pushes(PUT_REGS) + ExprCode(name, R12, c).value, GetLoops(dest, l);
    var m1 := NameRuns(name, c, m, syms);
    var p := pc + |head|;
    StandsPart(x, pc, head, loops + Pops(PUT_REGS));
    StandsPart(x, p, loops, Pops(PUT_REGS));
    assert |loops| == 31 by { GetLength(dest, l); }
    var m2 := GetLoopsReach(x, p, dest, l, m1, base, s, bytes, syms);
    t := PopsOver(PUT_REGS, m2, m, syms);
    ReachRun(x, pc, head, m, m1, syms);
    ReachRun(x, p + 31, Pops(PUT_REGS), m2, t, syms);
    ReachTrans(x, Spot(pc, m), Spot(p, m1), Spot(p + 31, m2), syms);
    ReachTrans(x, Spot(pc, m), Spot(p + 31, m2), Spot(p + 31 + |Pops(PUT_REGS)|, t), syms);
  }

  // ---- the three statements as operations on a list ----

  /** The table in memory is the list of entries. */
  ghost predicate ListAt(m: Mem, base: int, es: seq<Entry>) {
    exists s :: TableAt(m, base, s) && Represents(s, es)
  }

  /** Nothing but the table and dead stack words has changed. */
  ghost predicate OnlyTable(m: Machine, t: Machine, base: int, stack: nat) {
    forall a: int | !(base <= a < base + TABLE_SIZE) && !(m.regs[RSP] as int - stack <= a < m.regs[RSP]) ::
      Rd(t.mem, a) == Rd(m.mem, a)
  }

  function Bytes(m: Mem, base: int): (s: seq<Byte>)
    ensures |s| == TABLE_SIZE + SLOT_SIZE && forall i | 0 <= i < |s| :: s[i] == Rd(m, base + i)
  {
    seq<Byte>(TABLE_SIZE + SLOT_SIZE, i => Rd(m, base + i))
  }

  /** Whatever the table held, `ramfs_init` makes it the empty list. */
  lemma InitMakesEmpty(x: Listing, pc: nat, loop: string, m: Machine, base: int, syms: Syms) returns (t: Machine)
    requires Unique(x.items) && Stands(x, pc, InitCode(loop)) && TablePlaced(m, base, 16, syms)
    ensures Reaches(x, Spot(pc, m), Spot(pc + |InitCode(loop)|, t), syms)
    ensures ListAt(t.mem, base, []) && OnlyTable(m, t, base, 16) && t.regs == m.regs[RAX := 0]
  {
    hide Unique, Stands, Reaches, InitCode, Represents, WriteAt;
    var s := Bytes(m.mem, base);
    t := InitReaches(x, pc, loop, m, base, s, syms);
    InitRepresents(s);
    assert TableAt(t.mem, base, WriteAt(s, 0, Zeros(TABLE_SIZE)));
    assert Zeros(TABLE_SIZE) == seq<Byte>(TABLE_SIZE, i => 0);
  }

  /** While the table has room, `ramfs_put` of a fitting name appends an entry, and what lies behind the
      table is kept. */
  lemma PutAddsEntry(x: Listing, pc: nat, fs: string, found: string, cn: string, done: string, name: Expr, data: Expr,
                     len: Expr, c: Ctx,
                     m: Machine, base: int, es: seq<Entry>, bytes: seq<Byte>, nm: seq<Byte>, syms: Syms)
    returns (t: Machine)
    requires WellFormed(c) && PutEmitted(name, data, len, c) && Unique(x.items) &&
             Stands(x, pc, PutCode(fs, found, cn, done, name, data, len, c))
    requires Readable(name, c, m, m.regs[RSP], syms) && Readable(data, c, m, m.regs[RSP], syms) &&
             Readable(len, c, m, m.regs[RSP], syms)
    requires TablePlaced(m, base, 24 + 8 * MaxDepth3(name, data, len), syms)
    requires var at, lo := PutSeen(name, data, len, c, m, syms).name as int,
             m.regs[RSP] as int - 24 - 8 * MaxDepth3(name, data, len);
             NameApart(m.mem, at, bytes, base) && (at + NAME_SIZE <= lo || m.regs[RSP] <= at)
    requires ListAt(m.mem, base, es) && |es| < SLOTS && Fits(nm) && Spells(bytes, nm)
    ensures Reaches(x, Spot(pc, m), Spot(pc + |PutCode(fs, found, cn, done, name, data, len, c)|, t), syms)
    ensures var v := PutSeen(name, data, len, c, m, syms);
            ListAt(t.mem, base, es + [Entry(nm, v.data, v.len)])
    ensures OnlyTable(m, t, base, 24 + 8 * MaxDepth3(name, data, len))
    ensures forall q: Reg | q !in {RAX, RCX, RSI, RDI, R11, R15} :: t.regs[q] == m.regs[q]
  {
    hide Unique, Stands, Reaches, PutCode, Represents, PutSpec, PutSeen, Readable, WellFormed, PutEmitted, MaxDepth3,
      Fits, Spells;
    var s :| TableAt(m.mem, base, s) && Represents(s, es);
    var v := PutSeen(name, data, len, c, m, syms);
    t := PutReaches(x, pc, fs, found, cn, done, name, data, len, c, m, base, s, bytes, syms);
    LongEnough(bytes);
    PutAppends(s, es, bytes, nm, v.data, v.len);
    SpilledNothing(m, t, base, s, PutSpec(s, bytes, v.data, v.len), 24 + 8 * MaxDepth3(name, data, len));
  }

  lemma SpilledNothing(m: Machine, t: Machine, base: int, s: seq<Byte>, u: seq<Byte>, stack: nat)
    requires TableAt(m.mem, base, s) && TableAt(t.mem, base, u) && u[TABLE_SIZE..] == s[TABLE_SIZE..]
    requires forall a: int | !(base <= a < base + TABLE_SIZE + SLOT_SIZE) &&
                             !(m.regs[RSP] as int - stack <= a < m.regs[RSP]) :: Rd(t.mem, a) == Rd(m.mem, a)
    ensures OnlyTable(m, t, base, stack)
  {
    forall a: int | base + TABLE_SIZE <= a < base + TABLE_SIZE + SLOT_SIZE
      ensures Rd(t.mem, a) == Rd(m.mem, a)
    {
      var i := a - base;
      assert u[i] == u[TABLE_SIZE..][i - TABLE_SIZE] == s[TABLE_SIZE..][i - TABLE_SIZE] == s[i];
      assert Rd(t.mem, base + i) == u[i] && Rd(m.mem, base + i) == s[i];
    }
  }

  /** `ramfs_get` of a fitting name is the lookup of the list, in every destination but r12, r13 and r14. */
  lemma GetLooksUp(x: Listing, pc: nat, dest: Reg, l: Labels, name: Expr, c: Ctx, m: Machine, base: int, es: seq<Entry>,
                   bytes: seq<Byte>, nm: seq<Byte>, syms: Syms) returns (t: Machine)
    requires WellFormed(c) && ExprCode(name, R12, c).Some? && Unique(x.items) &&
             Stands(x, pc, GetCode(dest, l, name, c)) && dest != RSP
    requires Readable(name, c, m, m.regs[RSP], syms) && TablePlaced(m, base, 24 + 8 * Depth(name), syms)
    requires LookedUp(m.mem, Seen(name, m.regs[R12], c, m, syms), bytes)
    requires var at, lo := Seen(name, m.regs[R12], c, m, syms) as int, m.regs[RSP] as int - 24 - 8 * Depth(name);
             at + NAME_SIZE <= lo || m.regs[RSP] <= at
    requires ListAt(m.mem, base, es) && Fits(nm) && Spells(bytes, nm)
    ensures Reaches(x, Spot(pc, m), Spot(pc + |GetCode(dest, l, name, c)|, t), syms)
    ensures t.regs[dest] == Ramfs.Lookup(es, nm) <==> (dest !in {R12, R13, R14} || m.regs[dest] == Ramfs.Lookup(es, nm))
    ensures ListAt(t.mem, base, es) && OnlyTable(m, t, base, 24 + 8 * Depth(name))
    ensures forall q: Reg | q !in {RAX, RCX, RDX, RSI, RDI, R11, dest} :: t.regs[q] == m.regs[q]
  {
    hide Unique, Stands, Reaches, GetCode, Represents, GetSpec, Seen, Readable, WellFormed, ExprCode, Depth, Fits,
      Spells, Ramfs.Lookup;
    var s :| TableAt(m.mem, base, s) && Represents(s, es);
    t := GetReaches(x, pc, dest, l, name, c, m, base, s[..TABLE_SIZE], bytes, syms);
    LongEnough(bytes);
    GetIsLookup(s, es, bytes, nm);
    TableEnough(s, bytes);
    assert TableAt(t.mem, base, s);
  }

  /** A lookup depends on the table's bytes only. */
  lemma TableEnough(s: seq<Byte>, name: seq<Byte>)
    requires |s| >= TABLE_SIZE && Terminated(name)
    ensures GetSpec(s[..TABLE_SIZE], name) == GetSpec(s, name)
  {
    hide FirstMatch, FromLE;
    var k := FirstMatch(s, name, 0);
    MatchEnough(s, name, 0);
    if k < SLOTS {
      var at := SLOT_SIZE * k + NAME_SIZE;
      assert s[..TABLE_SIZE][at..at + 8] == s[at..at + 8];
    }
  }

  lemma {:induction false} MatchEnough(s: seq<Byte>, name: seq<Byte>, k: nat)
    requires |s| >= TABLE_SIZE && Terminated(name) && k <= SLOTS
    ensures FirstMatch(s[..TABLE_SIZE], name, k) == FirstMatch(s, name, k)
    decreases SLOTS - k
  {
    hide SameName;
    if k < SLOTS {
      EmptyNulFree(name);
      SameEnough(s, SLOT_SIZE * k, name, 0);
      MatchEnough(s, name, k + 1);
    }
  }

  lemma {:induction false} SameEnough(s: seq<Byte>, at: nat, name: seq<Byte>, j: nat)
    requires |s| >= TABLE_SIZE && at + NAME_SIZE <= TABLE_SIZE && Terminated(name) && j <= NAME_SIZE && j <= |name| &&
             NulFree(name[..j])
    ensures SameName(s[..TABLE_SIZE], at, name, j) == SameName(s, at, name, j)
    decreases NAME_SIZE - j
  {
    if j < NAME_SIZE {
      StillInside(name, j);
      if name[j] != 0 {
        OneMore(name, j);
        SameEnough(s, at, name, j + 1);
      }
    }
  }
}
