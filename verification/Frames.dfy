/** Frame discipline: where locals lie, and what a call leaves behind, over any tree of calls. */
module Frames {
  import opened Wrappers
  import opened Words
  import opened Memory
  import opened Regs
  import opened Isa
  import opened Assembly
  import opened Ast
  import opened Codegen
  import opened Semantics

  // ---- locals ----

  function TotalSize(locals: seq<(string, nat)>): nat {
    Round16(LocalsSize(locals))
  }

  lemma RoundUp(size: nat)
    ensures size <= Round8(size) < size + 8 && Round8(size) % 8 == 0
    ensures size <= Round16(size) < size + 16 && Round16(size) % 16 == 0
  {
    DivAlgorithm(size + 7, 8);
    DivAlgorithm(size + 15, 16);
    DivModUnique((size + 7) / 8 * 8, 8, (size + 7) / 8, 0);
    DivModUnique((size + 15) / 16 * 16, 16, (size + 15) / 16, 0);
  }

  /** rbp-relative offset of the k-th local. */
  function SlotOf(locals: seq<(string, nat)>, k: nat): int
    requires k < |locals|
  {
    -(32 + LocalsSize(locals[..k + 1]))
  }

  lemma {:induction false} SizesGrow(locals: seq<(string, nat)>, j: nat, k: nat)
    requires j <= k <= |locals|
    ensures LocalsSize(locals[..j]) <= LocalsSize(locals[..k])
    decreases k
  {
    if j < k {
      assert locals[..k][..k - 1] == locals[..k - 1];
      SizesGrow(locals, j, k - 1);
      RoundUp(locals[k - 1].1);
    }
  }

  lemma NextSize(locals: seq<(string, nat)>, k: nat)
    requires k < |locals|
    ensures LocalsSize(locals[..k + 1]) == LocalsSize(locals[..k]) + Round8(locals[k].1)
  {
    assert locals[..k + 1][..k] == locals[..k];
  }

  /** Locals are pairwise disjoint, below the saved registers, at or above rsp after the prologue, 8-aligned. */
  lemma LocalsDisjoint(locals: seq<(string, nat)>, j: nat, k: nat)
    requires j < |locals| && k < |locals|
    ensures -(32 + TotalSize(locals)) <= SlotOf(locals, k) && SlotOf(locals, k) + locals[k].1 <= -32
    ensures j < k ==> SlotOf(locals, k) + locals[k].1 <= SlotOf(locals, j)
    ensures SlotOf(locals, k) % 8 == 0
  {
    hide LocalsSize, Round16, Round8;
    SlotBounds(locals, k);
    if j < k {
      SizesGrow(locals, j + 1, k);
      NextSize(locals, k);
      RoundUp(locals[k].1);
    }
    SizesAligned(locals, k + 1);
  }

  /** Every local has a size. */
  predicate Sized(locals: seq<(string, nat)>) {
    forall k | 0 <= k < |locals| :: locals[k].1 >= 1
  }

  /** The words at the slots lie below the saved registers and apart from each other. */
  predicate WordsApart(locals: seq<(string, nat)>) {
    && (forall k | 0 <= k < |locals| :: SlotOf(locals, k) + 8 <= -32)
    && (forall j, k | 0 <= j < k < |locals| :: SlotOf(locals, k) + 8 <= SlotOf(locals, j))
  }

  /** The eight bytes a statement writes to a local are its own exactly when every local has a size: one of size 0 gets
      the word of the local declared before it, and the first one that of the saved r14. */
  lemma WordsApartIff(locals: seq<(string, nat)>)
    ensures WordsApart(locals) <==> Sized(locals)
  {
    hide LocalsSize, Round8, Round16, SlotOf;
    if Sized(locals) {
      forall k | 0 <= k < |locals|
        ensures SlotOf(locals, k) + 8 <= -32
      {
        LocalsDisjoint(locals, k, k);
      }
      forall j, k | 0 <= j < k < |locals|
        ensures SlotOf(locals, k) + 8 <= SlotOf(locals, j)
      {
        LocalsDisjoint(locals, j, k);
        LocalsDisjoint(locals, j, j);
      }
    } else {
      var k :| 0 <= k < |locals| && locals[k].1 == 0;
      EmptySlot(locals, k);
    }
  }

  lemma EmptySlot(locals: seq<(string, nat)>, k: nat)
    requires k < |locals| && locals[k].1 == 0
    ensures SlotOf(locals, k) == if k == 0 then -32 else SlotOf(locals, k - 1)
  {
    NextSize(locals, k);
  }

  lemma SlotBounds(locals: seq<(string, nat)>, k: nat)
    requires k < |locals|
    ensures -(32 + TotalSize(locals)) <= SlotOf(locals, k) && SlotOf(locals, k) + locals[k].1 <= -32
  {
    hide LocalsSize, Round16, Round8;
    NextSize(locals, k);
    RoundUp(locals[k].1);
    SizesGrow(locals, k + 1, |locals|);
    SizesGrow(locals, 0, k);
    assert locals[..|locals|] == locals;
    RoundUp(LocalsSize(locals));
    EmptySize(locals);
  }

  lemma EmptySize(locals: seq<(string, nat)>)
    ensures LocalsSize(locals[..0]) == 0
  {
  }

  lemma {:induction false} SizesAligned(locals: seq<(string, nat)>, k: nat)
    requires k <= |locals|
    ensures LocalsSize(locals[..k]) % 8 == 0
  {
    if k == 0 {
      EmptySize(locals);
    } else {
      hide LocalsSize, Round8;
      SizesAligned(locals, k - 1);
      NextSize(locals, k - 1);
      RoundUp(locals[k - 1].1);
      EightsAdd(LocalsSize(locals[..k - 1]), Round8(locals[k - 1].1));
    }
  }

  lemma EightsAdd(a: nat, b: nat)
    requires a % 8 == 0 && b % 8 == 0
    ensures (a + b) % 8 == 0
  {
  }

  /** The name table holds the slot of the last local declared under the name. */
  lemma {:induction false} LocalSlotOf(locals: seq<(string, nat)>, k: nat)
    requires k < |locals| && forall j | k < j < |locals| :: locals[j].0 != locals[k].0
    ensures locals[k].0 in LocalSlots(locals) && LocalSlots(locals)[locals[k].0] == SlotOf(locals, k)
    decreases |locals|
  {
    var n := |locals| - 1;
    if k == n {
      assert locals[..n + 1] == locals;
    } else {
      assert locals[..n][..k + 1] == locals[..k + 1];
      LocalSlotOf(locals[..n], k);
    }
  }

  // ---- activations ----

  /** What a function body does between prologue and epilogue: arbitrary work, and calls. */
  datatype Body =
    | Done
    | Work(after: Machine, rest: Body)
    | Invoke(ret: Word, locals: seq<(string, nat)>, body: Body, rest: Body)

  /** Prologue, body, restore sequence, `ret`: the final machine and the address returned to. */
  function Activate(locals: seq<(string, nat)>, body: Body, m: Machine): Option<(Machine, Word)>
    decreases body, 1
  {
    match Prologue(locals)
    case None => None
    case Some(entry) =>
      match Run(entry, m, map[])
      case None => None
      case Some(m1) =>
        match RunBody(body, m1)
        case None => None
        case Some(m2) =>
          match Run(RESTORE, m2, map[])
          case None => None
          case Some(m3) =>
            var sp: int := m3.regs[RSP];
            Some((m3.Set(RSP, Wrap(sp + 8)), Load64(m3.mem, sp)))
  }

  /** A call that does not come back to its return address has no run. */
  function RunBody(b: Body, m: Machine): Option<Machine>
    decreases b, 0
  {
    match b
    case Done => Some(m)
    case Work(after, rest) => RunBody(rest, after)
    case Invoke(ret, locals, body, rest) =>
      match Activate(locals, body, PushValue(m, ret))
      case None => None
      case Some(r) => if r.1 == ret then RunBody(rest, r.0) else None
  }

  /** Saved registers, saved rbp and return address of a frame. */
  predicate InSaved(a: int, rbp: int) {
    rbp - 32 <= a < rbp + 16
  }

  ghost function Guard(keep: iset<int>, rbp: int): iset<int> {
    keep + iset a: int | InSaved(a, rbp)
  }

  ghost predicate Kept(m: Machine, m': Machine, keep: iset<int>) {
    forall a | a in keep :: Rd(m'.mem, a) == Rd(m.mem, a)
  }

  ghost predicate Above(keep: iset<int>, lo: int) {
    forall a | a in keep :: a >= lo
  }

  /** Stack space a call needs: return address, saved registers, locals. */
  function FrameSize(locals: seq<(string, nat)>): nat {
    48 + TotalSize(locals)
  }

  /** Work keeps rbp, keeps rsp at or below the locals, and writes nothing that is guarded; calls have room. */
  ghost predicate Disciplined(b: Body, m: Machine, keep: iset<int>, low: int)
    decreases b, 0
  {
    match b
    case Done => true
    case Work(after, rest) =>
      && after.regs[RBP] == m.regs[RBP] && after.regs[RSP] <= low && Kept(m, after, keep)
      && Disciplined(rest, after, keep, low)
    case Invoke(ret, locals, body, rest) =>
      && FrameSize(locals) <= m.regs[RSP] && Prologue(locals).Some?
      && DisciplinedCall(locals, body, PushValue(m, ret), keep)
      && (forall r | Activate(locals, body, PushValue(m, ret)) == Some((r, ret)) :: Disciplined(rest, r, keep, low))
  }

  /** The callee's body is disciplined in its own frame. */
  ghost predicate DisciplinedCall(locals: seq<(string, nat)>, body: Body, m: Machine, keep: iset<int>)
    decreases body, 1
  {
    Prologue(locals).Some? &&
    var entry := Run(Prologue(locals).value, m, map[]);
    entry.Some? ==>
      Disciplined(body, entry.value, Guard(keep, m.regs[RSP] as int - 8), m.regs[RSP] as int - 40 - TotalSize(locals))
  }

  /** Registers a call preserves. */
  const PRESERVED: set<Reg> := {RBX, R12, R13, R14, RBP}

  ghost predicate SavedAt(m: Machine, rbp: int, was: Machine) {
    && Load64(m.mem, rbp) == was.regs[RBP]
    && Load64(m.mem, rbp - 8) == was.regs[RBX]
    && Load64(m.mem, rbp - 16) == was.regs[R12]
    && Load64(m.mem, rbp - 24) == was.regs[R13]
    && Load64(m.mem, rbp - 32) == was.regs[R14]
  }

  lemma PushStep(r: Reg, m: Machine)
    requires m.regs[RSP] >= 8
    ensures Step(Ins(Push(r)), m, map[]) == Some(PushValue(m, m.regs[r]))
    ensures var m' := PushValue(m, m.regs[r]);
            && m'.regs == m.regs[RSP := m.regs[RSP] - 8]
            && Load64(m'.mem, m.regs[RSP] - 8) == m.regs[r]
            && SameFrom(m.mem, m'.mem, m.regs[RSP])
  {
    hide Load64, Store64;
    LoadStore64(m.mem, m.regs[RSP] - 8, m.regs[r]);
  }

  /** Stack words that are not overwritten keep their value. */
  lemma KeepWord(m: Machine, m': Machine, sp: int, at: int)
    requires SameFrom(m.mem, m'.mem, sp) && sp <= at
    ensures Load64(m'.mem, at) == Load64(m.mem, at)
  {
    Load64Same(m.mem, m'.mem, at);
  }

  lemma PushesSaved(m: Machine) returns (t: Machine)
    requires m.regs[RSP] >= 40
    ensures Run([Ins(Push(RBP)), Ins(MovRR(RBP, RSP))] + PushAll(CALLEE_SAVED), m, map[]) == Some(t)
    ensures t.regs[RBP] == m.regs[RSP] - 8 && t.regs[RSP] == m.regs[RSP] - 40
    ensures SavedAt(t, m.regs[RSP] as int - 8, m) && SameFrom(m.mem, t.mem, m.regs[RSP])
    ensures forall r: Reg | r != RSP && r != RBP :: t.regs[r] == m.regs[r]
  {
    hide Load64, Run, Step, PushValue, Store64;
    var sp: int := m.regs[RSP];
    PushStep(RBP, m);
    var m1 := PushValue(m, m.regs[RBP]);
    MovStep(m1);
    var m2 := m1.Set(RBP, m1.regs[RSP]);
    PushStep(RBX, m2);
    var m3 := PushValue(m2, m2.regs[RBX]);
    PushStep(R12, m3);
    var m4 := PushValue(m3, m3.regs[R12]);
    PushStep(R13, m4);
    var m5 := PushValue(m4, m4.regs[R13]);
    PushStep(R14, m5);
    t := PushValue(m5, m5.regs[R14]);
    SevenItems(m, m1, m2, m3, m4, m5, t);
    KeepWord(m2, t, sp - 8, sp - 8);
    KeepWord(m3, t, sp - 16, sp - 16);
    KeepWord(m4, t, sp - 24, sp - 24);
    KeepWord(m5, t, sp - 32, sp - 32);
  }

  lemma MovStep(m: Machine)
    ensures Step(Ins(MovRR(RBP, RSP)), m, map[]) == Some(m.Set(RBP, m.regs[RSP]))
  {
  }

  lemma SevenItems(m: Machine, m1: Machine, m2: Machine, m3: Machine, m4: Machine, m5: Machine, t: Machine)
    requires Step(Ins(Push(RBP)), m, map[]) == Some(m1) && Step(Ins(MovRR(RBP, RSP)), m1, map[]) == Some(m2)
    requires Step(Ins(Push(RBX)), m2, map[]) == Some(m3) && Step(Ins(Push(R12)), m3, map[]) == Some(m4)
    requires Step(Ins(Push(R13)), m4, map[]) == Some(m5) && Step(Ins(Push(R14)), m5, map[]) == Some(t)
    ensures Run([Ins(Push(RBP)), Ins(MovRR(RBP, RSP))] + PushAll(CALLEE_SAVED), m, map[]) == Some(t)
  {
    hide Step, Run;
    var l6 := [Ins(Push(R14))];
    var l5 := [Ins(Push(R13))] + l6;
    var l4 := [Ins(Push(R12))] + l5;
    var l3 := [Ins(Push(RBX))] + l4;
    var l2 := [Ins(MovRR(RBP, RSP))] + l3;
    Run1(Ins(Push(R14)), m5, map[]);
    RunCons(Ins(Push(R13)), l6, m4, map[]);
    RunCons(Ins(Push(R12)), l5, m3, map[]);
    RunCons(Ins(Push(RBX)), l4, m2, map[]);
    RunCons(Ins(MovRR(RBP, RSP)), l3, m1, map[]);
    RunCons(Ins(Push(RBP)), l2, m, map[]);
    assert [Ins(Push(RBP))] + l2 == [Ins(Push(RBP)), Ins(MovRR(RBP, RSP))] + PushAll(CALLEE_SAVED);
  }

  /** The prologue saves five registers below the return address and leaves rsp below the locals. */
  lemma PrologueRuns(locals: seq<(string, nat)>, m: Machine) returns (t: Machine)
    requires Prologue(locals).Some? && 40 + TotalSize(locals) <= m.regs[RSP]
    ensures Run(Prologue(locals).value, m, map[]) == Some(t)
    ensures t.regs[RBP] == m.regs[RSP] - 8 && t.regs[RSP] == m.regs[RSP] - 40 - TotalSize(locals)
    ensures SavedAt(t, m.regs[RSP] as int - 8, m) && SameFrom(m.mem, t.mem, m.regs[RSP])
    ensures forall r: Reg | r != RSP && r != RBP :: t.regs[r] == m.regs[r]
  {
    hide Load64, Run, PushAll, LocalsSize, Round16, SavedAt, AluFlags;
    var s := PushesSaved(m);
    var pushes := [Ins(Push(RBP)), Ins(MovRR(RBP, RSP))] + PushAll(CALLEE_SAVED);
    var total := TotalSize(locals);
    if total == 0 {
      t := s;
      assert pushes + [] == pushes;
    } else {
      t := Exec(AluImm(SUB, RSP, total), s).value;
      Run1(Ins(AluImm(SUB, RSP, total)), s, map[]);
      RunConcat(pushes, [Ins(AluImm(SUB, RSP, total))], m, map[]);
    }
    assert SavedAt(t, m.regs[RSP] as int - 8, m) by { SavedSame(s, t, m.regs[RSP] as int - 8, m); }
  }

  lemma SavedSame(s: Machine, t: Machine, rbp: int, was: Machine)
    requires SavedAt(s, rbp, was) && s.mem == t.mem
    ensures SavedAt(t, rbp, was)
  {
  }

  lemma PopStep(r: Reg, m: Machine)
    requires m.regs[RSP] as int + 8 < TWO64 && r != RSP
    ensures Step(Ins(Pop(r)), m,
            map[]) == Some(m.(regs := m.regs[RSP := m.regs[RSP] + 8][r := Load64(m.mem, m.regs[RSP])]))
  {
    hide Load64;
  }

  /** From any state in which rbp and the saved words are those of the entry, the restore sequence gives
      back the registers and points rsp at the return address. */
  lemma RestoreRuns(m: Machine, rbp: Word, was: Machine) returns (t: Machine)
    requires m.regs[RBP] == rbp && 32 <= rbp && rbp as int + 16 <= TWO64 && SavedAt(m, rbp, was)
    ensures Run(RESTORE, m, map[]) == Some(t)
    ensures t.mem == m.mem && t.regs[RSP] == rbp + 8
    ensures forall r | r in PRESERVED :: t.regs[r] == was.regs[r]
    ensures forall r: Reg | r !in PRESERVED && r != RSP :: t.regs[r] == m.regs[r]
  {
    hide Load64, Run, Step, AluFlags;
    var m1 := m.Set(RSP, m.regs[RBP]);
    MoveToSp(m);
    SubSp(m1);
    var m2 := Step(Ins(AluImm(SUB, RSP, 32)), m1, map[]).value;
    PopStep(R14, m2);
    var m3 := Step(Ins(Pop(R14)), m2, map[]).value;
    PopStep(R13, m3);
    var m4 := Step(Ins(Pop(R13)), m3, map[]).value;
    PopStep(R12, m4);
    var m5 := Step(Ins(Pop(R12)), m4, map[]).value;
    PopStep(RBX, m5);
    var m6 := Step(Ins(Pop(RBX)), m5, map[]).value;
    PopStep(RBP, m6);
    t := Step(Ins(Pop(RBP)), m6, map[]).value;
    var l6 := [Ins(Pop(RBP))];
    var l5 := [Ins(Pop(RBX))] + l6;
    var l4 := [Ins(Pop(R12))] + l5;
    var l3 := [Ins(Pop(R13))] + l4;
    var l2 := [Ins(Pop(R14))] + l3;
    var l1 := [Ins(AluImm(SUB, RSP, 32))] + l2;
    Run1(Ins(Pop(RBP)), m6, map[]);
    RunCons(Ins(Pop(RBX)), l6, m5, map[]);
    RunCons(Ins(Pop(R12)), l5, m4, map[]);
    RunCons(Ins(Pop(R13)), l4, m3, map[]);
    RunCons(Ins(Pop(R14)), l3, m2, map[]);
    RunCons(Ins(AluImm(SUB, RSP, 32)), l2, m1, map[]);
    RunCons(Ins(MovRR(RSP, RBP)), l1, m, map[]);
    assert [Ins(MovRR(RSP, RBP))] + l1 == RESTORE;
  }

  lemma MoveToSp(m: Machine)
    ensures Step(Ins(MovRR(RSP, RBP)), m, map[]) == Some(m.Set(RSP, m.regs[RBP]))
  {
  }

  lemma SubSp(m: Machine)
    requires m.regs[RSP] >= 32
    ensures var t := Step(Ins(AluImm(SUB, RSP, 32)), m, map[]);
            t.Some? && t.value.mem == m.mem && t.value.regs == m.regs[RSP := m.regs[RSP] - 32]
  {
  }

  /** A call, whatever the tree below it, comes back to its return address with rbx, r12-r14 and rbp as
      at entry, rsp one slot above entry, and every guarded byte at or above entry rsp unchanged. */
  lemma {:induction false} CallReturns(locals: seq<(string, nat)>, body: Body, m: Machine, keep: iset<int>)
    returns (r: Machine)
    requires 40 + TotalSize(locals) <= m.regs[RSP] && m.regs[RSP] as int + 8 < TWO64
    requires Above(keep, m.regs[RSP]) && DisciplinedCall(locals, body, m, keep)
    ensures Activate(locals, body, m) == Some((r, Load64(m.mem, m.regs[RSP])))
    ensures r.regs[RSP] == m.regs[RSP] + 8
    ensures forall q | q in PRESERVED :: r.regs[q] == m.regs[q]
    ensures Kept(m, r, keep)
    decreases body, 1
  {
    hide Load64, Run, SavedAt, TotalSize, Prologue, Activate, RunBody, Disciplined;
    var sp: int := m.regs[RSP];
    var m1 := PrologueRuns(locals, m);
    var guarded := Guard(keep, sp - 8);
    assert Above(guarded, sp - 40);
    var m2 := BodyReturns(body, m1, guarded, sp - 40 - TotalSize(locals));
    assert SavedAt(m2, sp - 8, m) by { SavedKept(m1, m2, sp - 8, m, guarded); }
    var m3 := RestoreRuns(m2, sp - 8, m);
    r := m3.Set(RSP, sp + 8);
    ActivateIs(locals, body, m, m1, m2, m3);
    ReturnAddressKept(m, m1, m2, sp, guarded);
  }

  lemma ActivateIs(locals: seq<(string, nat)>, body: Body, m: Machine, m1: Machine, m2: Machine, m3: Machine)
    requires Prologue(locals).Some? && Run(Prologue(locals).value, m, map[]) == Some(m1)
    requires RunBody(body, m1) == Some(m2) && Run(RESTORE, m2, map[]) == Some(m3)
    ensures var sp: int := m3.regs[RSP];
            Activate(locals, body, m) == Some((m3.Set(RSP, Wrap(sp + 8)), Load64(m3.mem, sp)))
  {
    hide Load64, Run, Prologue, RunBody;
  }

  lemma SavedKept(m1: Machine, m2: Machine, rbp: int, was: Machine, keep: iset<int>)
    requires SavedAt(m1, rbp, was) && Kept(m1, m2, keep)
    requires forall a | InSaved(a, rbp) :: a in keep
    ensures SavedAt(m2, rbp, was)
  {
    hide Load64;
    forall a | rbp - 32 <= a < rbp + 8
      ensures Rd(m1.mem, a) == Rd(m2.mem, a)
    {
      assert InSaved(a, rbp);
    }
    Load64Same(m1.mem, m2.mem, rbp);
    Load64Same(m1.mem, m2.mem, rbp - 8);
    Load64Same(m1.mem, m2.mem, rbp - 16);
    Load64Same(m1.mem, m2.mem, rbp - 24);
    Load64Same(m1.mem, m2.mem, rbp - 32);
  }

  lemma ReturnAddressKept(m: Machine, m1: Machine, m2: Machine, sp: int, keep: iset<int>)
    requires SameFrom(m.mem, m1.mem, sp) && Kept(m1, m2, keep) && forall a | InSaved(a, sp - 8) :: a in keep
    ensures Load64(m2.mem, sp) == Load64(m.mem, sp)
  {
    forall a | sp <= a < sp + 8
      ensures Rd(m.mem, a) == Rd(m2.mem, a)
    {
      assert InSaved(a, sp - 8);
    }
    Load64Same(m.mem, m2.mem, sp);
  }

  lemma {:induction false} BodyReturns(b: Body, m: Machine, keep: iset<int>, low: int) returns (r: Machine)
    requires Disciplined(b, m, keep, low) && m.regs[RSP] <= low && low < TWO64 - 8 && Above(keep, low)
    ensures RunBody(b, m) == Some(r)
    ensures r.regs[RBP] == m.regs[RBP] && r.regs[RSP] <= low && Kept(m, r, keep)
    decreases b, 0
  {
    hide Load64, Run, TotalSize, Prologue, PushValue;
    if b.Done? {
      r := m;
    } else if b.Work? {
      r := BodyReturns(b.rest, b.after, keep, low);
    } else {
      var m1 := PushValue(m, b.ret);
      PushedReturn(m, b.ret);
      assert Above(keep, m1.regs[RSP]);
      var m2 := CallReturns(b.locals, b.body, m1, keep);
      assert Activate(b.locals, b.body, m1) == Some((m2, b.ret));
      r := BodyReturns(b.rest, m2, keep, low);
      assert Kept(m, m1, keep);
    }
  }

  lemma PushedReturn(m: Machine, v: Word)
    requires m.regs[RSP] >= 8
    ensures var m' := PushValue(m, v);
            && m'.regs == m.regs[RSP := m.regs[RSP] - 8]
            && Load64(m'.mem, m.regs[RSP] - 8) == v && SameFrom(m.mem, m'.mem, m.regs[RSP])
  {
    hide Load64, Store64;
    LoadStore64(m.mem, m.regs[RSP] - 8, v);
  }
}
