/** Running the linked bytes by fetch, decode and execute follows the source program step for step. */
module Simulation {
  import opened Wrappers
  import opened Words
  import opened Memory
  import opened Regs
  import opened Isa
  import opened Encoding
  import opened EncodingProofs
  import opened Assembly
  import opened Ast
  import opened Codegen
  import opened Semantics
  import opened ExprProofs
  import opened StmtProofs

  // ---- the byte-level machine ----

  /** `pc` is an offset into the code, which is loaded at address `base`. */
  datatype Cpu = Cpu(m: Machine, pc: int)

  /** Fetch, decode, execute. None is a fault, an undefined opcode, or a system call. */
  function CpuStep(code: seq<Byte>, base: Word, s: Cpu): Option<Cpu> {
    if !(0 <= s.pc < |code|) then None
    else
      var d := Decode(code[s.pc..]);
      if d.None? then None else Execute(d.value.0, s.pc + d.value.1, base, s.m)
  }

  function Execute(i: Instr, next: int, base: Word, m: Machine): Option<Cpu> {
    match i
    case Jmp(rel) => Some(Cpu(m, next + rel))
    case Jcc(cc, rel) =>
      (match Holds(cc, m.flags) case None => None case Some(b) => Some(Cpu(m, if b then next + rel else next)))
    case Call(rel) => Some(Cpu(PushValue(m, Wrap(base + next)), next + rel))
    case LeaRip(d, rel) => Some(Cpu(m.Set(d, Wrap(base + next + rel)), next))
    case Ret =>
      var sp: int := m.regs[RSP];
      Some(Cpu(m.Set(RSP, Wrap(sp + 8)), Load64(m.mem, sp) as int - base))
    case _ => (match Exec(i, m) case None => None case Some(m') => Some(Cpu(m', next)))
  }

  function CpuRun(code: seq<Byte>, base: Word, s: Cpu, n: nat): Option<Cpu>
    decreases n
  {
    if n == 0 then Some(s)
    else (match CpuStep(code, base, s) case None => None case Some(s') => CpuRun(code, base, s', n - 1))
  }

  lemma {:induction false} CpuRunAdd(code: seq<Byte>, base: Word, s: Cpu, a: nat, b: nat)
    ensures CpuRun(code, base, s, a + b) ==
            (match CpuRun(code, base, s, a) case None => None case Some(s') => CpuRun(code, base, s', b))
    decreases a
  {
    hide CpuStep;
    if a > 0 && CpuStep(code, base, s).Some? {
      CpuRunAdd(code, base, CpuStep(code, base, s).value, a - 1, b);
    }
  }

  // ---- a linked image ----

  /** The program's items, where its labels ended up, and the bytes the linker produced. */
  datatype Image = Image(items: seq<Item>, offs: map<string, int>, wide: bool, code: seq<Byte>)

  ghost predicate Built(g: Image) {
    && EmitAll(EMPTY, g.items, g.wide).Some?
    && AllLegal(g.items)
    && var st := EmitAll(EMPTY, g.items, g.wide).value;
       && (forall l <- st.labels :: l in g.offs && g.offs[l] == st.labels[l])
       && Linked(g.items, g.offs, g.wide) == Some(g.code)
  }

  function Off(g: Image, k: nat): nat
    requires k <= |g.items| && AllLegal(g.items)
  {
    Size(g.items[..k], g.wide)
  }

  lemma OffNext(g: Image, k: nat)
    requires k < |g.items| && AllLegal(g.items)
    ensures Off(g, k + 1) == Off(g, k) + |ItemBytes(g.items[k], g.wide)|
  {
    assert g.items[..k + 1][..k] == g.items[..k];
  }

  /** A label is bound to the offset of the item that defines it. */
  lemma {:induction false} LabelBound(items: seq<Item>, k: nat, wide: bool)
    requires EmitAll(EMPTY, items, wide).Some? && AllLegal(items) && k < |items| && items[k].Lab?
    ensures items[k].name in EmitAll(EMPTY, items, wide).value.labels
    ensures EmitAll(EMPTY, items, wide).value.labels[items[k].name] == Size(items[..k], wide)
    decreases |items|
  {
    hide Encode, Size;
    var n := |items| - 1;
    assert forall i | 0 <= i < n :: items[..n][i] == items[i];
    if k == n {
      AssembledSize(items[..n], wide);
    } else {
      LabelBound(items[..n], k, wide);
      assert items[..n][..k] == items[..k];
    }
  }

  /** The bytes at an item's offset are its encoding with the final displacement. */
  lemma {:induction false} BytesAt(items: seq<Item>, offs: map<string, int>, wide: bool, k: nat)
    requires AllLegal(items) && Linked(items, offs, wide).Some? && k < |items| && !items[k].Lab?
    ensures |Linked(items, offs, wide).value| == Size(items, wide)
    ensures Size(items[..k], wide) <= Size(items, wide)
    ensures Resolved(items[k], Size(items[..k], wide), offs, wide).Some?
    ensures var i := Resolved(items[k], Size(items[..k], wide), offs, wide).value;
            && Legal(i) && |Encode(i, wide)| == |ItemBytes(items[k], wide)|
            && Encode(i, wide) <= Linked(items, offs, wide).value[Size(items[..k], wide)..]
    decreases |items|
  {
    hide Encode, Resolved, ItemBytes;
    var n := |items| - 1;
    LinkedSize(items, offs, wide);
    LinkedSize(items[..n], offs, wide);
    if k == n {
      ResolvedLength(items[n], Size(items[..n], wide), offs, wide);
    } else {
      BytesAt(items[..n], offs, wide, k);
      assert items[..n][..k] == items[..k] && items[..n][k] == items[k];
      var at := Size(items[..k], wide);
      var before, after := Linked(items[..n], offs, wide).value, Linked(items, offs, wide).value;
      assert before <= after;
      assert before[at..] <= after[at..];
    }
  }

  lemma ResolvedLength(it: Item, at: nat, offs: map<string, int>, wide: bool)
    requires !it.Lab? && LegalItem(it) && Resolved(it, at, offs, wide).Some?
    ensures var i := Resolved(it, at, offs, wide).value;
            Legal(i) && |Encode(i, wide)| == |ItemBytes(it, wide)|
  {
    if Refers(it) {
      hide Encode, ItemBytes;
      var r := Reloc(Field(at + |ItemBytes(it, wide)|), it.target);
      DisplacementFits(r, offs);
      RefersSplit(it, Displacement(r, offs).value, wide);
    }
  }

  lemma {:induction false} LinkedSize(items: seq<Item>, offs: map<string, int>, wide: bool)
    requires AllLegal(items) && Linked(items, offs, wide).Some?
    ensures |Linked(items, offs, wide).value| == Size(items, wide)
    decreases |items|
  {
    if items != [] {
      hide Encode, Resolved, ItemBytes;
      var n := |items| - 1;
      LinkedSize(items[..n], offs, wide);
      if !items[n].Lab? {
        ResolvedLength(items[n], Size(items[..n], wide), offs, wide);
      } else {
        LabelIsEmpty(items[n], wide);
      }
    }
  }

  /** Fetching at an item's offset decodes exactly that item. */
  lemma FetchItem(g: Image, k: nat)
    requires Built(g) && k < |g.items| && !g.items[k].Lab?
    ensures 0 <= Off(g, k) < |g.code|
    ensures Resolved(g.items[k], Off(g, k), g.offs, g.wide).Some?
    ensures Decode(g.code[Off(g, k)..]) ==
            Some((Resolved(g.items[k], Off(g, k), g.offs, g.wide).value, Off(g, k + 1) - Off(g, k)))
  {
    hide Encode, Decode, Resolved, ItemBytes, Linked, Size, EmitAll, Legal, LegalItem;
    BytesAt(g.items, g.offs, g.wide, k);
    OffNext(g, k);
    var i, tail := Resolved(g.items[k], Off(g, k), g.offs, g.wide).value, g.code[Off(g, k)..];
    var enc := Encode(i, g.wide);
    assert tail == enc + tail[|enc|..];
    RoundTrip(i, g.wide, tail[|enc|..]);
  }

  /** Data labels of the image as run-time addresses. */
  ghost predicate Addresses(g: Image, base: Word, syms: Syms) {
    forall l <- syms :: l in g.offs && syms[l] == Wrap(base + g.offs[l])
  }

  predicate StraightItem(it: Item) {
    it.Lab? || it.LeaTo? || (it.Ins? && !it.ins.LeaRip? && !it.ins.Jmp? && !it.ins.Jcc? && !it.ins.Call?
                             && !it.ins.Ret? && !it.ins.Syscall?)
  }

  /** Bytes that hold straight-line items, executed, do what running the items does. */
  lemma StepBytes(g: Image, base: Word, syms: Syms, k: nat, m: Machine)
    requires Built(g) && Addresses(g, base, syms) && k < |g.items| && StraightItem(g.items[k]) && !g.items[k].Lab?
    requires g.items[k].LeaTo? ==> g.items[k].target in syms
    ensures CpuStep(g.code, base, Cpu(m, Off(g, k))) ==
            (match Step(g.items[k], m, syms) case None => None case Some(m') => Some(Cpu(m', Off(g, k + 1))))
  {
    hide Decode, Exec, Size, Linked, EmitAll, Encode;
    FetchItem(g, k);
    var it := g.items[k];
    if it.LeaTo? {
      hide ItemBytes;
      OffNext(g, k);
      LeaLength(it, g.wide);
      WrapAddress(base, Off(g, k + 1), g.offs[it.target] - Off(g, k + 1));
    }
  }

  lemma LeaLength(it: Item, wide: bool)
    requires Refers(it)
    ensures |ItemBytes(it, wide)| >= 5
  {
    RefersSplit(it, 0, wide);
  }

  lemma WrapAddress(base: Word, next: int, rel: int)
    ensures base + next + rel == base + (next + rel)
  {
  }

  /** Items that occupy space. */
  function Count(items: seq<Item>): nat {
    if items == [] then 0 else (if items[0].Lab? then 0 else 1) + Count(items[1..])
  }

  lemma {:induction false} RunBytes(g: Image, base: Word, syms: Syms, j: nat, k: nat, m: Machine)
    requires Built(g) && Addresses(g, base, syms) && j <= k <= |g.items|
    requires forall i | j <= i < k :: StraightItem(g.items[i]) && (g.items[i].LeaTo? ==> g.items[i].target in syms)
    ensures CpuRun(g.code, base, Cpu(m, Off(g, j)), Count(g.items[j..k])) ==
            (match Run(g.items[j..k], m, syms) case None => None case Some(m') => Some(Cpu(m', Off(g, k))))
    decreases k - j
  {
    hide CpuStep, Step, Size, Built, Addresses;
    if j < k {
      assert g.items[j..k][0] == g.items[j] && g.items[j..k][1..] == g.items[j + 1..k];
      assert AllLegal(g.items) by { BuiltLegal(g); }
      if g.items[j].Lab? {
        OffNext(g, j);
        LabelIsEmpty(g.items[j], g.wide);
        LabStep(g.items[j], m, syms);
        RunBytes(g, base, syms, j + 1, k, m);
      } else {
        StepBytes(g, base, syms, j, m);
        var m' := Step(g.items[j], m, syms);
        if m'.Some? {
          RunBytes(g, base, syms, j + 1, k, m'.value);
        }
      }
    }
  }

  lemma BuiltLegal(g: Image)
    requires Built(g)
    ensures AllLegal(g.items)
  {
  }

  lemma LabStep(it: Item, m: Machine, syms: Syms)
    requires it.Lab?
    ensures Step(it, m, syms) == Some(m)
  {
  }

  /** A jump item, executed from its bytes, goes to its label. */
  lemma JumpBytes(g: Image, base: Word, k: nat, m: Machine)
    requires Built(g) && k < |g.items| && (g.items[k].JmpTo? || g.items[k].JccTo?)
    ensures g.items[k].target in g.offs
    ensures var it, to := g.items[k], g.offs[g.items[k].target];
            CpuStep(g.code, base, Cpu(m, Off(g, k))) ==
            if it.JmpTo? then Some(Cpu(m, to))
            else (match Holds(it.cc, m.flags)
                  case None => None
                  case Some(b) => Some(Cpu(m, if b then to else Off(g, k + 1))))
  {
    hide Decode, Size, Linked, Encode, ItemBytes, Holds;
    FetchItem(g, k);
    OffNext(g, k);
    LeaLength(g.items[k], g.wide);
  }

  lemma OneStep(code: seq<Byte>, base: Word, s: Cpu)
    ensures CpuRun(code, base, s, 1) == CpuStep(code, base, s)
  {
    hide CpuStep;
    if CpuStep(code, base, s).Some? {
      assert CpuRun(code, base, CpuStep(code, base, s).value, 0) == Some(CpuStep(code, base, s).value);
    }
  }

  lemma CpuRunZero(code: seq<Byte>, base: Word, s: Cpu)
    ensures CpuRun(code, base, s, 0) == Some(s)
  {
  }
}
