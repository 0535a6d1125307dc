/** Whole programs: struct and data collection, code order, the link map, and the file that is written. */
module Programs {
  import opened Wrappers
  import opened Words
  import opened Regs
  import opened Isa
  import opened Assembly
  import opened Ast
  import opened Codegen
  import Images
  import Boot

  type Alignment = a: int | a >= 1 witness 1

  datatype AllocSize = Count(bytes: int) | SizeOf(struct: string)

  /** `data:` declarations. `raw` is the encoded string with its final zero. */
  datatype DataDecl =
    | Alloc(name: string, size: AllocSize)
    | Align(to: Alignment)
    | DataBytes(name: string, values: seq<Byte>)
    | ConstNum(name: string, number: int)
    | ConstStr(name: string, raw: seq<Byte>)

  datatype Top =
    | Decl(decl: DataDecl)
    | StructDef(name: string, fields: seq<(string, int)>)
    | Fn(def: FnDef)
    | Do(stmt: Stmt)

  // ---- collection ----

  /** Offsets of the fields and the size of the struct. */
  function FieldOffsets(fields: seq<(string, int)>): Struct {
    if fields == [] then Struct(map[], 0)
    else
      var n := |fields| - 1;
      var s := FieldOffsets(fields[..n]);
      Struct(s.fields[fields[n].0 := s.size], s.size + fields[n].1)
  }

  function Structs(prog: seq<Top>): map<string, Struct> {
    if prog == [] then map[]
    else
      var n := |prog| - 1;
      var m := Structs(prog[..n]);
      if prog[n].StructDef? then m[prog[n].name := FieldOffsets(prog[n].fields)] else m
  }

  /** The data area so far. `off` is the running offset, kept apart from the bytes. */
  datatype DataState = DataState(off: int, bytes: seq<Byte>, layout: map<string, int>, consts: map<string, int>,
                                 strings: set<string>)

  const NO_DATA: DataState := DataState(0, [], map[], map[], {})

  function SizeIn(size: AllocSize, structs: map<string, Struct>): Option<int> {
    match size
    case Count(n) => Some(n)
    case SizeOf(s) => if s in structs then Some(structs[s].size) else None
  }

  /** `b"\x00" * n`: empty when n is negative. */
  function ZeroBytes(n: int): seq<Byte> {
    if n < 0 then [] else Images.Zeros(n)
  }

  /** Bytes a declaration appends at running offset `off`; None is the error of an unknown size. */
  function Contents(d: DataDecl, off: int, structs: map<string, Struct>): Option<seq<Byte>> {
    match d
    case Alloc(_, size) => (match SizeIn(size, structs) case None => None case Some(n) => Some(ZeroBytes(n)))
    case Align(a) => Some(ZeroBytes(PadFor(off, a)))
    case DataBytes(_, values) => Some(values)
    case ConstNum(_, v) => Some(LE(Wrap(v), 8))
    case ConstStr(_, raw) => Some(raw)
  }

  function PadFor(off: int, a: Alignment): int {
    (a - off % a) % a
  }

  function Place(d: DataDecl, st: DataState, structs: map<string, Struct>): Option<DataState> {
    match Contents(d, st.off, structs)
    case None => None
    case Some(bytes) =>
      var st1 := st.(bytes := st.bytes + bytes);
      match d
      case Alloc(n, size) => Some(st1.(layout := st.layout[n := st.off], off := st.off + SizeIn(size, structs).value))
      case Align(a) => Some(st1.(off := st.off + PadFor(st.off, a)))
      case DataBytes(n, values) =>
        Some(st1.(layout := st.layout[n := st.off], strings := st.strings + {n}, off := st.off + |values|))
      case ConstNum(n, v) =>
        Some(st1.(layout := st.layout[n := st.off], consts := st.consts[n := v], off := st.off + 8))
      case ConstStr(n, raw) =>
        Some(st1.(layout := st.layout[n := st.off], strings := st.strings + {n}, off := st.off + |raw|))
  }

  /** `_collect_data`. */
  function Collect(prog: seq<Top>, structs: map<string, Struct>): Option<DataState> {
    if prog == [] then Some(NO_DATA)
    else
      var n := |prog| - 1;
      match Collect(prog[..n], structs)
      case None => None
      case Some(st) => if prog[n].Decl? then Place(prog[n].decl, st, structs) else Some(st)
  }

  // ---- code ----

  function TopStmts(prog: seq<Top>): seq<Stmt> {
    if prog == [] then []
    else
      var n := |prog| - 1;
      if prog[n].Do? then TopStmts(prog[..n]) + [prog[n].stmt] else TopStmts(prog[..n])
  }

  function Functions(prog: seq<Top>): seq<FnDef> {
    if prog == [] then []
    else
      var n := |prog| - 1;
      if prog[n].Fn? then Functions(prog[..n]) + [prog[n].def] else Functions(prog[..n])
  }

  function FnsCode(fns: seq<FnDef>, c: Ctx): Option<seq<Item>> {
    if fns == [] then Some([])
    else Opt(FnsCode(fns[..|fns| - 1], c), FnCode(fns[|fns| - 1], c))
  }

  /** `_ends_exit`. */
  predicate EndsExit(prog: seq<Top>) {
    && prog != [] && prog[|prog| - 1].Do? && prog[|prog| - 1].stmt.SysCall?
    && match prog[|prog| - 1].stmt.num
       case Numbered(n) => n == 60
       case Named(s) => Lower(s) in {"exit", "60"}
  }

  /** exit(0). */
  function ExitCode(): seq<Item> {
    Imm(RAX, 60) + [Ins(Alu(XOR, RDI, RDI)), Ins(Syscall)]
  }

  datatype Options = Options(baremetal: bool, debug: bool, wx: bool, wide: bool)

  function Tail(prog: seq<Top>, o: Options): seq<Item> {
    if !o.baremetal && !EndsExit(prog) then ExitCode() else []
  }

  /** Top-level statements first, an exit unless the program has one, then the functions. */
  function ProgramCode(prog: seq<Top>, o: Options, c: Ctx): Option<seq<Item>> {
    Opt(Opt(BodyCode(TopStmts(prog), c, false), Some(Tail(prog, o))), FnsCode(Functions(prog), c))
  }

  // ---- the link map ----

  lemma DataLabelsInjective()
    ensures forall a, b | DataLabel(a) == DataLabel(b) :: a == b
  {
    forall a, b | DataLabel(a) == DataLabel(b)
      ensures a == b
    {
      assert a == DataLabel(a)[7..] && b == DataLabel(b)[7..];
    }
  }

  /** Where each data label lies if the data directly follows the code. */
  function DataOffsets(layout: map<string, int>, codeLen: nat): map<string, int> {
    DataLabelsInjective();
    map n | n in layout :: DataLabel(n) := codeLen + layout[n]
  }

  predicate IsDataLabel(l: string) {
    "__data_" <= l
  }

  /** The offsets `generate` links with. */
  function FinalOffsets(labels: map<string, nat>, layout: map<string, int>, codeLen: nat, wx: bool): map<string, int> {
    var all: map<string, int> := (map l | l in labels :: labels[l] as int) + DataOffsets(layout, codeLen);
    if wx then map l | l in all :: all[l] + (if IsDataLabel(l) then Images.WxPad(codeLen) else 0) else all
  }

  datatype Output = Output(items: seq<Item>, offs: map<string, int>, code: seq<Byte>, data: seq<Byte>, names: Ctx)

  /** `generate` up to the image writers; None is any of its errors. */
  function Generate(prog: seq<Top>, o: Options): Option<Output> {
    match Collect(prog, Structs(prog))
    case None => None
    case Some(st) =>
      var c := Ctx(map[], map[], st.consts, st.strings, st.layout, Structs(prog), o.baremetal);
      match ProgramCode(prog, o, c)
      case None => None
      case Some(items) =>
        match EmitAll(EMPTY, items, o.wide)
        case None => None
        case Some(a) =>
          var offs := FinalOffsets(a.labels, st.layout, |a.code|, o.wx);
          EmitKeepsFields(EMPTY, items, o.wide);
          match LinkAll(a.code, a.relocs, offs)
          case None => None
          case Some(code) => Some(Output(items, offs, code, st.bytes, c))
  }

  // ---- the file ----

  /** The executable for the linked program. */
  function FileFor(o: Options, code: seq<Byte>, data: seq<Byte>, info: Images.DebugInfo): Option<seq<Byte>> {
    if o.baremetal then Boot.Kernel(Payload(code), data, Boot.LOAD_ADDR)
    else if o.debug then Images.DebugExe(code, data, 0, info)
    else if o.wx then Images.WxExe(code, data, 0)
    else Images.PlainExe(code, data, 0)
  }

  /** An empty kernel still halts. */
  function Payload(code: seq<Byte>): seq<Byte> {
    if code == [] then Boot.HALT_LOOP else code
  }

  /** Address of the first code byte at run time. */
  function CodeBase(o: Options): nat {
    if o.baremetal then Boot.CodeStart(Boot.LOAD_ADDR) + Boot.Plan(Boot.LOAD_ADDR).user
    else if !o.debug && o.wx then Images.LOAD_VADDR + Images.PAGE
    else Images.LOAD_VADDR + Images.PLAIN_HEADER
  }

  /** Address of the first data byte at run time. */
  function DataBase(o: Options, code: seq<Byte>): int {
    if o.baremetal then CodeBase(o) + |Payload(code)|
    else if !o.debug && o.wx then CodeBase(o) + |code| + Images.WxPad(|code|)
    else CodeBase(o) + |code|
  }
}
