/** The linked displacements and the written file agree on where code and data are. */
module LayoutProofs {
  import opened Wrappers
  import opened Words
  import opened Memory
  import opened Regs
  import opened Isa
  import opened Encoding
  import opened Assembly
  import opened Ast
  import opened Codegen
  import opened Semantics
  import opened Simulation
  import opened SourceLanguage
  import opened ProgramSimulation
  import opened Programs
  import Images
  import Boot

  // ---- data collection ----

  predicate NegativeAlloc(t: Top, structs: map<string, Struct>) {
    t.Decl? && t.decl.Alloc? && SizeIn(t.decl.size, structs).Some? && SizeIn(t.decl.size, structs).value < 0
  }

  /** One declaration: the offset moves with the data, or behind it by a negative size. */
  lemma PlaceTracks(d: DataDecl, st: DataState, structs: map<string, Struct>)
    requires Place(d, st, structs).Some? && st.off <= |st.bytes|
    ensures var st' := Place(d, st, structs).value;
            && st'.off <= |st'.bytes|
            && (st'.off == |st'.bytes| <==> st.off == |st.bytes| && !NegativeAlloc(Decl(d), structs))
  {
  }

  /** The running offset is the length of the data exactly when no declaration has a negative size. */
  lemma {:induction false} OffsetTracksBytes(prog: seq<Top>, structs: map<string, Struct>)
    requires Collect(prog, structs).Some?
    ensures var st := Collect(prog, structs).value;
            && st.off <= |st.bytes|
            && (st.off == |st.bytes| <==> forall k | 0 <= k < |prog| :: !NegativeAlloc(prog[k], structs))
    decreases |prog|
  {
    hide Place, NegativeAlloc;
    if prog != [] {
      var n := |prog| - 1;
      OffsetTracksBytes(prog[..n], structs);
      assert forall k | 0 <= k < n :: prog[..n][k] == prog[k];
      if prog[n].Decl? {
        PlaceTracks(prog[n].decl, Collect(prog[..n], structs).value, structs);
      } else {
        NotNegative(prog[n], structs);
      }
    }
  }

  lemma NotNegative(t: Top, structs: map<string, Struct>)
    requires !t.Decl?
    ensures !NegativeAlloc(t, structs)
  {
  }

  predicate Names(t: Top, n: string) {
    t.Decl? && !t.decl.Align? && t.decl.name == n
  }

  lemma PlaceKeeps(d: DataDecl, st: DataState, structs: map<string, Struct>, n: string)
    requires Place(d, st, structs).Some? && (d.Align? || d.name != n)
    ensures var st' := Place(d, st, structs).value;
            st.bytes <= st'.bytes && (n in st.layout ==> n in st'.layout && st'.layout[n] == st.layout[n])
  {
  }

  /** The bytes of declaration k are where the layout puts its name, unless a later one takes the name. */
  lemma {:induction false} DataItemPlaced(prog: seq<Top>, structs: map<string, Struct>, k: nat, n: string)
    requires Collect(prog, structs).Some? && k < |prog| && Names(prog[k], n)
    requires forall j | k < j < |prog| :: !Names(prog[j], n)
    requires forall j | 0 <= j < |prog| :: !NegativeAlloc(prog[j], structs)
    ensures var st := Collect(prog, structs).value;
            && Collect(prog[..k], structs).Some?
            && n in st.layout && st.layout[n] == Collect(prog[..k], structs).value.off
            && 0 <= st.layout[n] <= |st.bytes|
            && Contents(prog[k].decl, st.layout[n], structs).Some?
            && Contents(prog[k].decl, st.layout[n], structs).value <= st.bytes[st.layout[n]..]
    decreases |prog|
  {
    var m := |prog| - 1;
    assert forall j | 0 <= j < m :: prog[..m][j] == prog[j];
    OffsetTracksBytes(prog[..m], structs);
    if k < m {
      hide Contents, Place;
      DataItemPlaced(prog[..m], structs, k, n);
      if prog[m].Decl? {
        PlaceKeeps(prog[m].decl, Collect(prog[..m], structs).value, structs, n);
      }
      assert prog[..m][..k] == prog[..k];
      var before, after := Collect(prog[..m], structs).value, Collect(prog, structs).value;
      assert before.bytes <= after.bytes;
      assert after.bytes[after.layout[n]..][..|before.bytes| - after.layout[n]] == before.bytes[after.layout[n]..];
    }
  }

  /** `data:align a` leaves the running offset a multiple of a. */
  lemma AlignDirective(st: DataState, a: Alignment, structs: map<string, Struct>)
    ensures Place(Align(a), st, structs).Some?
    ensures Place(Align(a), st, structs).value.off % a == 0
    ensures 0 <= Place(Align(a), st, structs).value.off - st.off < a
  {
    var q, r := st.off / a, st.off % a;
    assert st.off == q * a + r && 0 <= r < a;
    if r == 0 {
      DivModUnique(a - r, a, 1, 0);
      DivModUnique(q * a, a, q, 0);
    } else {
      DivModUnique(a - r, a, 0, a - r);
      DivModUnique(q * a + a, a, q + 1, 0);
    }
  }

  // ---- the labels of a generated program ----

  predicate UserItem(it: Item) {
    it.Lab? ==> "__lbl_" <= it.name
  }

  predicate UserItems(items: seq<Item>) {
    forall k | 0 <= k < |items| :: UserItem(items[k])
  }

  lemma UserConcat(a: seq<Item>, b: seq<Item>)
    requires UserItems(a) && UserItems(b)
    ensures UserItems(a + b)
  {
  }

  lemma {:induction false} ExprItems(e: Expr, dst: Reg, c: Ctx)
    requires ExprCode(e, dst, c).Some?
    ensures UserItems(ExprCode(e, dst, c).value)
  {
    if e.Bin? {
      ExprItems(e.left, R11, c);
      ExprItems(e.right, R12, c);
      var l, r := ExprCode(e.left, R11, c).value, ExprCode(e.right, R12, c).value;
      UserConcat(l, [Ins(Push(R11))]);
      UserConcat(l + [Ins(Push(R11))], r);
      UserConcat(l + [Ins(Push(R11))] + r, [Ins(Pop(R11)), Combine(e.op)] + Move(dst, R11));
    }
  }

  lemma {:induction false} PushItems(args: seq<Expr>, via: Reg, c: Ctx)
    requires PushArgs(args, via, c).Some?
    ensures UserItems(PushArgs(args, via, c).value)
  {
    hide ExprCode;
    if args != [] {
      var n := |args| - 1;
      PushItems(args[..n], via, c);
      ExprItems(args[n], via, c);
      UserConcat(ExprCode(args[n], via, c).value, [Ins(Push(via))]);
      UserConcat(PushArgs(args[..n], via, c).value, ExprCode(args[n], via, c).value + [Ins(Push(via))]);
    }
  }

  lemma {:induction false} PopItems(n: nat, targets: seq<Reg>)
    requires n <= |targets|
    ensures UserItems(PopArgs(n, targets))
  {
    if n > 0 {
      PopItems(n - 1, targets);
    }
  }

  lemma MarshalItems(args: seq<Expr>, via: Reg, targets: seq<Reg>, c: Ctx)
    requires |targets| == 6 && Marshal(args, via, targets, c).Some?
    ensures UserItems(Marshal(args, via, targets, c).value)
  {
    hide PushArgs, PopArgs;
    PushItems(FirstSix(args), via, c);
    PopItems(|FirstSix(args)|, targets);
    UserConcat(PushArgs(FirstSix(args), via, c).value, PopArgs(|FirstSix(args)|, targets));
  }

  lemma BinItems(op: CpuOp, dest: string, value: Expr, c: Ctx)
    requires CpuBinCode(op, dest, value, c).Some?
    ensures UserItems(CpuBinCode(op, dest, value, c).value)
  {
    hide ExprCode, Resolve, LoadSlot, StoreSlot, Operate;
    if dest in c.locals {
      var off := c.locals[dest];
      SlotItems(off);
      if op == Set {
        ExprItems(value, R11, c);
        UserConcat(ExprCode(value, R11, c).value, StoreSlot(off, R11).value);
      } else {
        ExprItems(value, R12, c);
        OperateItems(op, R11, R12, value);
        UserConcat(LoadSlot(R11, off).value, ExprCode(value, R12, c).value);
        UserConcat(LoadSlot(R11, off).value + ExprCode(value, R12, c).value, Operate(op, R11, R12, value));
        UserConcat(LoadSlot(R11, off).value + ExprCode(value, R12, c).value + Operate(op, R11, R12, value),
                   StoreSlot(off, R11).value);
      }
    } else {
      var d := Resolve(dest).value;
      if op == Set {
        ExprItems(value, d, c);
      } else {
        ExprItems(value, SCRATCH, c);
        OperateItems(op, d, SCRATCH, value);
        UserConcat(ExprCode(value, SCRATCH, c).value, Operate(op, d, SCRATCH, value));
      }
    }
  }

  lemma SlotItems(off: int)
    ensures LoadSlot(R11, off).Some? ==> UserItems(LoadSlot(R11, off).value)
    ensures StoreSlot(off, R11).Some? ==> UserItems(StoreSlot(off, R11).value)
  {
  }

  lemma OperateItems(op: CpuOp, d: Reg, v: Reg, e: Expr)
    requires op != Set
    ensures UserItems(Operate(op, d, v, e))
  {
  }

  lemma CmpItems(left: Expr, right: Expr, c: Ctx)
    requires CmpCode(left, right, c).Some?
    ensures UserItems(CmpCode(left, right, c).value)
  {
    hide ExprCode;
    ExprItems(left, SCRATCH, c);
    ExprItems(right, SCRATCH, c);
  }

  lemma StmtItems(s: Stmt, c: Ctx, inFn: bool)
    requires StmtCode(s, c, inFn).Some?
    ensures UserItems(StmtCode(s, c, inFn).value)
  {
    hide ExprCode, CpuBinCode, CmpCode, Marshal, Resolve, CondCode;
    if s.Cmp? { CmpItems(s.left, s.right, c); }
    else if s.CpuBin? { BinItems(s.op, s.dest, s.value, c); }
    else if s.CallFn? { MarshalItems(s.args, R11, CALL_ARGS, c); }
    else if s.SysCall? { MarshalItems(s.args, SCRATCH, SYSCALL_ARGS, c); }
    else if s.RetVal? { ExprItems(s.result, RAX, c); }
    else if s.StackPush? { ExprItems(s.value, R11, c); }
  }

  lemma {:induction false} BodyItems(body: seq<Stmt>, c: Ctx, inFn: bool)
    requires BodyCode(body, c, inFn).Some?
    ensures UserItems(BodyCode(body, c, inFn).value)
  {
    hide StmtCode;
    if body != [] {
      var n := |body| - 1;
      BodyItems(body[..n], c, inFn);
      StmtItems(body[n], c, inFn);
      UserConcat(BodyCode(body[..n], c, inFn).value, StmtCode(body[n], c, inFn).value);
    }
  }

  lemma FnItems(f: FnDef, c: Ctx)
    requires FnCode(f, c).Some?
    ensures UserItems(FnCode(f, c).value)
  {
    hide BodyCode, LocalsSize, Round16;
    BodyItems(f.body, c.(args := ArgRegs(f.args), locals := LocalSlots(f.locals)), true);
  }

  lemma {:induction false} FnsItems(fns: seq<FnDef>, c: Ctx)
    requires FnsCode(fns, c).Some?
    ensures UserItems(FnsCode(fns, c).value)
  {
    hide FnCode;
    if fns != [] {
      var n := |fns| - 1;
      FnsItems(fns[..n], c);
      FnItems(fns[n], c);
      UserConcat(FnsCode(fns[..n], c).value, FnCode(fns[n], c).value);
    }
  }

  /** Every label of a generated program is a user label, so none can be taken for a data label. */
  lemma GeneratedLabels(prog: seq<Top>, o: Options)
    requires Generate(prog, o).Some?
    ensures EmitAll(EMPTY, Generate(prog, o).value.items, o.wide).Some?
    ensures forall l <- EmitAll(EMPTY, Generate(prog, o).value.items, o.wide).value.labels :: !IsDataLabel(l)
  {
    hide EmitAll, LinkAll, BodyCode, FnsCode, FinalOffsets, Collect, FieldsOk;
    var out := Generate(prog, o).value;
    var b, t, f := BodyCode(TopStmts(prog), out.names, false), Tail(prog, o), FnsCode(Functions(prog), out.names);
    BodyItems(TopStmts(prog), out.names, false);
    FnsItems(Functions(prog), out.names);
    UserConcat(b.value, t);
    UserConcat(b.value + t, f.value);
    LabelsOf(out.items, o.wide);
  }

  lemma {:induction false} LabelsOf(items: seq<Item>, wide: bool)
    requires EmitAll(EMPTY, items, wide).Some? && UserItems(items)
    ensures forall l <- EmitAll(EMPTY, items, wide).value.labels :: !IsDataLabel(l)
    decreases |items|
  {
    if items != [] {
      hide ItemBytes, LegalItem;
      var n := |items| - 1;
      assert forall k | 0 <= k < n :: items[..n][k] == items[k];
      LabelsOf(items[..n], wide);
      if items[n].Lab? {
        PrefixesDiffer(items[n].name);
      }
    }
  }

  lemma PrefixesDiffer(l: string)
    requires "__lbl_" <= l
    ensures !IsDataLabel(l)
  {
    assert l[2] == 'l';
    assert "__data_"[2] == 'd';
  }

  // ---- addresses ----

  /** The configurations whose file puts the data where the displacements expect it. */
  predicate Consistent(o: Options, codeLen: nat) {
    && (o.wx && (o.baremetal || o.debug) ==> codeLen % 4096 == 0)
    && (o.baremetal ==> codeLen > 0)
  }

  /** The linker's offset of a data label. */
  lemma DataOffset(prog: seq<Top>, o: Options, n: string)
    requires Generate(prog, o).Some? && n in Generate(prog, o).value.names.data
    ensures var out := Generate(prog, o).value;
            && DataLabel(n) in out.offs
            && out.offs[DataLabel(n)] == |out.code| + out.names.data[n] + (if o.wx then Images.WxPad(|out.code|) else 0)
  {
    hide EmitAll, LinkAll, BodyCode, FnsCode, Collect, FieldsOk, Images.WxPad;
    GeneratedLabels(prog, o);
    DataLabelsInjective();
    assert IsDataLabel(DataLabel(n));
  }

  /** A data label's displacement leads to the byte it names exactly in the consistent configurations:
      W^X padding is linked in but not written for debug and kernel images. */
  lemma DataAddressIff(prog: seq<Top>, o: Options, n: string)
    requires Generate(prog, o).Some? && n in Generate(prog, o).value.names.data
    ensures var out := Generate(prog, o).value;
            && DataLabel(n) in out.offs
            && (CodeBase(o) + out.offs[DataLabel(n)] == DataBase(o, out.code) + out.names.data[n]
                <==> Consistent(o, |out.code|))
  {
    hide Generate, Boot.Plan, Images.WxPad, Images.WxOffsets;
    var out := Generate(prog, o).value;
    DataOffset(prog, o, n);
    Images.WxLayout(|out.code|);
  }

  /** Loading a part of what is loaded. */
  lemma LoadsPart(f: seq<Byte>, whole: seq<Byte>, a: nat, off: nat, part: seq<Byte>)
    requires Images.LoadsAt(f, whole, a) && off + |part| <= |whole| && whole[off..off + |part|] == part
    ensures Images.LoadsAt(f, part, a + off)
  {
    hide Images.LoadedByte, Images.HeaderCount;
    forall i | 0 <= i < |part|
      ensures Images.LoadedByte(f, Images.HeaderCount(f), a + off + i) == Some(part[i])
    {
      assert part[i] == whole[off..off + |part|][i] == whole[off + i];
      assert a + (off + i) == a + off + i;
    }
  }

  /** Every file, loaded: the code at its base, the data at its base, and Linux files start at the code. */
  lemma FileLoads(o: Options, code: seq<Byte>, data: seq<Byte>, info: Images.DebugInfo)
    requires FileFor(o, code, data, info).Some?
    ensures Images.LoadsAt(FileFor(o, code, data, info).value, if o.baremetal then Payload(code) else code, CodeBase(o))
    ensures DataBase(o, code) >= 0 && Images.LoadsAt(FileFor(o, code, data, info).value, data, DataBase(o, code))
    ensures !o.baremetal ==> Images.Entry(FileFor(o, code, data, info).value) == CodeBase(o)
  {
    hide Images.LoadsAt, Images.Entry, Images.SingleExe, Images.WxExe, Boot.Kernel, Boot.Plan, Images.WxPad,
      Images.AlignUp;
    Images.WxLayout(|code|);
    if o.baremetal {
      KernelLoads(Payload(code), data, Boot.LOAD_ADDR);
    } else if o.debug {
      Images.SingleLoads(code, data, 0, Images.Sections(info.shoff, 64, 5, 4), info.bytes);
    } else if o.wx {
      Images.WxLoads(code, data, 0);
    } else {
      Images.SingleLoads(code, data, 0, Images.NO_SECTIONS, []);
    }
  }

  lemma KernelLoads(user: seq<Byte>, data: seq<Byte>, loadAddr: nat)
    requires Boot.Kernel(user, data, loadAddr).Some?
    ensures var f, at := Boot.Kernel(user, data, loadAddr).value, Boot.CodeStart(loadAddr) + Boot.Plan(loadAddr).user;
            Images.LoadsAt(f, user, at) && Images.LoadsAt(f, data, at + |user|)
  {
    hide Images.LoadsAt, Images.Elf32, Boot.Plan, Boot.BootHead, Boot.BootTail;
    var f, p, start := Boot.Kernel(user, data, loadAddr).value, Boot.Plan(loadAddr), Boot.CodeStart(loadAddr);
    var blob := Boot.Blob(user, data, loadAddr);
    Boot.PlanOrdered(loadAddr);
    Images.Elf32Loads(blob, Boot.MULTIBOOT_SIZE, loadAddr);
    var pre := Boot.BootHead(p, start) + Boot.BootTail(p, start);
    assert |pre| == p.user;
    assert blob == pre + user + data + Boot.HALT_LOOP;
    assert blob[p.user..p.user + |user|] == user;
    assert blob[p.user + |user|..p.user + |user| + |data|] == data;
    LoadsPart(f, blob, start, p.user, user);
    LoadsPart(f, blob, start, p.user + |user|, data);
  }

  // ---- the whole pipeline ----

  /** A generated program as a linked image. */
  function ImageOf(out: Output, o: Options): Image {
    Image(out.items, out.offs, o.wide, out.code)
  }

  lemma GeneratedIsBuilt(prog: seq<Top>, o: Options)
    requires Generate(prog, o).Some?
    ensures Built(ImageOf(Generate(prog, o).value, o))
    ensures |EmitAll(EMPTY, Generate(prog, o).value.items, o.wide).value.code| == |Generate(prog, o).value.code|
  {
    hide BodyCode, FnsCode, Collect, FieldsOk, ProgramCode, DataOffsets, Images.WxPad, LinkAll, EmitAll, Linked;
    var out := Generate(prog, o).value;
    GeneratedLabels(prog, o);
    LinkIsResolution(out.items, out.offs, o.wide);
    var a := EmitAll(EMPTY, out.items, o.wide).value;
    assert LinkAll(a.code, a.relocs, out.offs) == Some(out.code);
    forall l <- a.labels
      ensures l in out.offs && out.offs[l] == a.labels[l]
    {
      DataOffsetsAreData(out.names.data, |a.code|);
    }
  }

  lemma DataOffsetsAreData(layout: map<string, int>, codeLen: nat)
    ensures forall l <- DataOffsets(layout, codeLen) :: IsDataLabel(l)
  {
  }

  /** Item k is a `lea` of the address of data item n. */
  predicate LeaOf(out: Output, k: nat, n: string) {
    k < |out.items| && out.items[k].LeaTo? && out.items[k].target == DataLabel(n)
  }

  /** Executing item k of the linked bytes sets `dst` to `at` and moves on. */
  ghost predicate LeaSets(out: Output, o: Options, k: nat, m: Machine, at: Word) {
    && AllLegal(out.items) && k < |out.items| && out.items[k].LeaTo? && CodeBase(o) < TWO64
    && CpuStep(out.code, CodeBase(o), Cpu(m, Off(ImageOf(out, o), k))) ==
       Some(Cpu(m.Set(out.items[k].dst, at), Off(ImageOf(out, o), k + 1)))
  }

  lemma LeaStep(prog: seq<Top>, o: Options, out: Output, k: nat, n: string, m: Machine, at: Word)
    requires Generate(prog, o) == Some(out) && LeaOf(out, k, n) && CodeBase(o) < TWO64
    requires DataLabel(n) in out.offs && CodeBase(o) + out.offs[DataLabel(n)] == at
    ensures LeaSets(out, o, k, m, at)
  {
    hide *;
    assert ImageOf(out, o).items == out.items && ImageOf(out, o).offs == out.offs &&
      ImageOf(out, o).code == out.code by {
      ImageParts(out, o);
    }
    assert k < |out.items| && out.items[k].LeaTo? && out.items[k].target == DataLabel(n) by { LeaParts(out, k, n); }
    GeneratedIsBuilt(prog, o);
    LeaBytes(ImageOf(out, o), CodeBase(o), k, m, at);
    BuiltLegal(ImageOf(out, o));
    LeaSetsIs(out, o, k, m, at);
  }

  lemma ImageParts(out: Output, o: Options)
    ensures ImageOf(out, o).items == out.items && ImageOf(out, o).offs == out.offs && ImageOf(out, o).code == out.code
  {
  }

  lemma LeaParts(out: Output, k: nat, n: string)
    requires LeaOf(out, k, n)
    ensures k < |out.items| && out.items[k].LeaTo? && out.items[k].target == DataLabel(n)
  {
  }

  lemma LeaSetsIs(out: Output, o: Options, k: nat, m: Machine, at: Word)
    requires AllLegal(out.items) && k < |out.items| && out.items[k].LeaTo? && CodeBase(o) < TWO64
    requires ImageOf(out, o).items == out.items
    requires CpuStep(out.code, CodeBase(o), Cpu(m, Off(ImageOf(out, o), k))) ==
             Some(Cpu(m.Set(out.items[k].dst, at), Off(ImageOf(out, o), k + 1)))
    ensures LeaSets(out, o, k, m, at)
  {
    hide CpuStep, Off, CodeBase, AllLegal, ImageOf;
  }

  /** A `lea` in any linked image sets its register to the address of its label. */
  lemma LeaBytes(g: Image, base: Word, k: nat, m: Machine, at: Word)
    requires Built(g) && k < |g.items| && g.items[k].LeaTo?
    requires g.items[k].target in g.offs && base + g.offs[g.items[k].target] == at
    ensures AllLegal(g.items)
    ensures CpuStep(g.code, base, Cpu(m, Off(g, k))) == Some(Cpu(m.Set(g.items[k].dst, at), Off(g, k + 1)))
  {
    hide CpuStep, Built, Off, AllLegal;
    BuiltLegal(g);
    var syms: Syms := map[g.items[k].target := at];
    assert Addresses(g, base, syms) by { WordWraps(at); }
    StepBytes(g, base, syms, k, m);
  }

  lemma WordWraps(w: Word)
    ensures Wrap(w) == w
  {
  }

  /** Executing a `lea` of a data name from the loaded code, in a consistent configuration, yields the
      address at which that item's byte is loaded. */
  lemma LeaReachesData(prog: seq<Top>, o: Options, out: Output, info: Images.DebugInfo, k: nat, n: string, m: Machine,
                       at: Word)
    requires Generate(prog, o) == Some(out) && Consistent(o, |out.code|) && LeaOf(out, k, n) && CodeBase(o) < TWO64
    requires n in out.names.data && 0 <= out.names.data[n] < |out.data|
    requires at == DataBase(o, out.code) + out.names.data[n] && FileFor(o, out.code, out.data, info).Some?
    ensures LeaSets(out, o, k, m, at)
    ensures var f := FileFor(o, out.code, out.data, info).value;
            Images.LoadedByte(f, Images.HeaderCount(f), at) == Some(out.data[out.names.data[n]])
  {
    hide Generate, FileFor, Images.LoadedByte, Images.HeaderCount, CodeBase, DataBase, Consistent, LeaSets;
    DataAddressIff(prog, o, n);
    LeaStep(prog, o, out, k, n, m, at);
    FileLoads(o, out.code, out.data, info);
  }

  /** A program whose top-level statements are in the simulated language is the image that the
      whole-program simulation speaks of. */
  lemma GeneratedIsCompiled(prog: seq<Top>, o: Options)
    requires Generate(prog, o).Some?
    requires SimpleProgram(TopStmts(prog), IntConsts(Generate(prog, o).value.names))
    ensures Compiled(TopStmts(prog), Generate(prog, o).value.names, ImageOf(Generate(prog, o).value, o))
  {
    hide BodyCode, FnsCode, Collect, FieldsOk, DataOffsets, Images.WxPad, LinkAll, EmitAll, Linked, FinalOffsets, Built,
      SimpleProgram;
    GeneratedIsBuilt(prog, o);
  }

  lemma StartMatches(prog: seq<Stmt>, c: Ctx, g: Image, m: Machine)
    requires Compiled(prog, c, g)
    ensures Match(prog, c, g, m, Src(0, m.regs, m.flags), Cpu(m, 0))
  {
    hide Built, BodyCode, SimpleProgram;
    assert AllLegal(g.items) by { BuiltLegal(g); }
    assert prog[..0] == [] && g.items[..0] == [];
    EmptyBody(c);
  }

  lemma EmptyBody(c: Ctx)
    ensures BodyCode([], c, false) == Some([])
  {
  }

  /** From source to run: the generated file loads its code at the base address, where a Linux file is
      entered, and n statements of the label-level interpreter are the corresponding instructions there. */
  lemma GeneratedProgramRuns(prog: seq<Top>, o: Options, out: Output, info: Images.DebugInfo, m: Machine, n: nat)
    requires Generate(prog, o) == Some(out) && out.code != [] && CodeBase(o) < TWO64
    requires SimpleProgram(TopStmts(prog), IntConsts(out.names)) && m.regs[RSP] >= 32
    ensures RunAgrees(TopStmts(prog), out.names, ImageOf(out, o), m,
                      SrcRun(TopStmts(prog), IntConsts(out.names), Src(0, m.regs, m.flags), n),
                      CpuRun(out.code, CodeBase(o), Cpu(m, 0),
                        RunSteps(TopStmts(prog), out.names, Src(0, m.regs, m.flags), n)))
    ensures FileFor(o, out.code, out.data, info).Some? ==>
              var f := FileFor(o, out.code, out.data, info).value;
              Images.LoadsAt(f, out.code, CodeBase(o)) && (!o.baremetal ==> Images.Entry(f) == CodeBase(o))
  {
    hide Generate, SrcRun, CpuRun, RunSteps, RunAgrees, CodeBase, FileFor, Compiled, SimpleProgram,
      Images.LoadsAt, Images.Entry, Match;
    GeneratedIsCompiled(prog, o);
    StartMatches(TopStmts(prog), out.names, ImageOf(out, o), m);
    RunSimulation(TopStmts(prog), out.names, ImageOf(out, o), CodeBase(o), m, Src(0, m.regs, m.flags), Cpu(m, 0), n);
    if FileFor(o, out.code, out.data, info).Some? {
      FileLoads(o, out.code, out.data, info);
    }
  }
}
