/** An interpreter for programs with functions: arguments, locals, jumps inside a body, nested calls and returned
    values. It gives a result only where the program does not depend on what it cannot know: a register, local or
    flag that nobody has set, or that the generated code has lost. */
module FnLanguage {
  import opened Wrappers
  import opened Words
  import opened Regs
  import opened Isa
  import opened Ast
  import opened Codegen
  import opened Semantics
  import opened ExprProofs
  import opened StmtProofs
  import opened SourceLanguage

  /** Registers with the set of those known, the flags if they are known, and the locals set so far. */
  datatype FnState = FnState(regs: RegFile, known: set<Reg>, flags: Option<Flags>, locals: map<string, Word>)

  function Reading(st: FnState, r: Reg): Option<Word> {
    if r in st.known then Some(st.regs[r]) else None
  }

  /** Evaluating a compound operand loses r12 and the flags. */
  function After(e: Expr, st: FnState): FnState {
    if Compound(e) then st.(known := st.known - {R12}, flags := None) else st
  }

  /** The value of an operand, mod 2^64; `c` names arguments, locals, constants, data and structs. */
  function Operand(e: Expr, c: Ctx, syms: Syms, st: FnState): Option<Word> {
    match e
    case Num(v) => Some(Wrap(v))
    case RegName(n) => (match Resolve(n) case None => None case Some(r) => Reading(st, r))
    case Ident(n) =>
      if n in c.args then Reading(st, c.args[n])
      else if n in c.locals then (if n in st.locals then Some(st.locals[n]) else None)
      else if n in c.consts && n !in c.strings then Some(Wrap(c.consts[n]))
      else if n in c.data then (if DataLabel(n) in syms then Some(syms[DataLabel(n)]) else None)
      else if n in c.structs then Some(Wrap(c.structs[n].size))
      else None
    case FieldRef(s, f) =>
      if s in c.structs && f in c.structs[s].fields then Some(Wrap(c.structs[s].fields[f])) else None
    case Str(_) => None
    case Bin(op, l, r) =>
      match Operand(l, c, syms, st)
      case None => None
      case Some(a) =>
        match Operand(r, c, syms, After(l, st)) case None => None case Some(b) => Some(Wrap(Apply(op, a, b)))
  }

  /** Result and flags of an operation; unknown flags stay unknown where the operation keeps them. */
  function Operation(op: CpuOp, a: Word, v: Word, flags: Option<Flags>): Option<(Word, Option<Flags>)> {
    match flags
    case Some(f) => (match OpSpec(op, a, v, f) case None => None case Some(r) => Some((r.0, Some(r.1))))
    case None =>
      if op == RclOp || op == RcrOp then None
      else
        (match OpSpec(op, a, v, UNDEFINED)
         case None => None
         case Some(r) => Some((r.0, if IsShift(op) || op == Set then None else Some(r.1))))
  }

  /** An operation on a local loses r12, and its old value when the operand is compound. */
  function OnLocal(op: CpuOp, d: string, v: Expr, x: Word, st: FnState): Option<FnState> {
    if op == Set then Some(After(v, st).(locals := st.locals[d := x]))
    else if d !in st.locals || Compound(v) then None
    else
      match Operation(op, st.locals[d], x, st.flags)
      case None => None
      case Some(y) => Some(st.(locals := st.locals[d := y.0], flags := y.1, known := st.known - {R12}))
  }

  function OnRegister(op: CpuOp, r: Reg, v: Expr, x: Word, st: FnState): Option<FnState> {
    var st1 := After(v, st);
    if op == Set then Some(st1.(regs := st.regs[r := x], known := st1.known + {r}))
    else if r !in st1.known then None
    else
      match Operation(op, st.regs[r], x, st1.flags)
      case None => None
      case Some(y) => Some(st1.(regs := st.regs[r := y.0], flags := y.1))
  }

  function FlagsAfter(op: CpuUnaryOp, a: Word, flags: Option<Flags>): Option<Flags> {
    match flags case None => None case Some(f) => Some(UnaryFlags(UnaryOf(op), a, f))
  }

  function Unaries(op: CpuUnaryOp, d: string, c: Ctx, st: FnState): Option<FnState> {
    if d in c.locals then
      if d !in st.locals then None
      else
        var a := st.locals[d];
        Some(st.(locals := st.locals[d := UnaryResult(UnaryOf(op), a)], flags := FlagsAfter(op, a, st.flags)))
    else
      match Resolve(d)
      case None => None
      case Some(r) =>
        if r !in st.known then None
        else
          var a := st.regs[r];
          Some(st.(regs := st.regs[r := UnaryResult(UnaryOf(op), a)], flags := FlagsAfter(op, a, st.flags)))
  }

  function Compared(l: Expr, r: Expr, c: Ctx, syms: Syms, st: FnState): Option<FnState> {
    match Operand(l, c, syms, st)
    case None => None
    case Some(a) =>
      match Operand(r, c, syms, After(l, st))
      case None => None
      case Some(b) => Some(After(r, After(l, st)).(flags := Some(AluFlags(CMP, a, b))))
  }

  /** A statement that falls through. */
  function Straight(s: Stmt, c: Ctx, syms: Syms, st: FnState): Option<FnState> {
    match s
    case Label(_) => Some(st)
    case Cmp(l, r) => Compared(l, r, c, syms, st)
    case CpuBin(op, d, v) =>
      (match Operand(v, c, syms, st)
       case None => None
       case Some(x) =>
         if d in c.locals then OnLocal(op, d, v, x, st)
         else (match Resolve(d) case None => None case Some(r) => OnRegister(op, r, v, x, st)))
    case CpuUnary(op, d) => Unaries(op, d, c, st)
    case _ => None
  }

  // ---- calls ----

  /** Registers a function gives back. */
  const KEPT: set<Reg> := {RBX, R12, R13, R14}

  function AfterAll(args: seq<Expr>, st: FnState): FnState {
    if args == [] then st else After(args[|args| - 1], AfterAll(args[..|args| - 1], st))
  }

  function ArgValues(args: seq<Expr>, c: Ctx, syms: Syms, st: FnState): (vs: Option<seq<Word>>)
    ensures vs.Some? ==> |vs.value| == |args|
  {
    if args == [] then Some([])
    else
      var n := |args| - 1;
      match ArgValues(args[..n], c, syms, st)
      case None => None
      case Some(vs) =>
        match Operand(args[n], c, syms, AfterAll(args[..n], st)) case None => None case Some(v) => Some(vs + [v])
  }

  function Given(regs: RegFile, vs: seq<Word>): RegFile
    requires |vs| <= 6
  {
    if vs == [] then regs
    else
      var n := |vs| - 1;
      Given(regs, vs[..n])[CALL_ARGS[n] := vs[n]]
  }

  /** The callee starts with the caller's registers, its arguments in theirs. */
  function Enter(st: FnState, vs: seq<Word>): FnState
    requires |vs| <= 6
  {
    FnState(Given(st.regs, vs), st.known + set i | 0 <= i < |vs| :: CALL_ARGS[i], None, map[])
  }

  /** Behind the call: the kept registers and the locals are the caller's, the others the callee's. */
  function Back(st: FnState, callee: FnState): FnState {
    FnState(seq<Word>(16, r requires 0 <= r < 16 => if r in KEPT then st.regs[r] else callee.regs[r]),
            st.known * KEPT + (callee.known - KEPT), None, st.locals)
  }

  function FindFn(fns: seq<FnDef>, name: string): (k: Option<nat>)
    ensures k.Some? ==> k.value < |fns| && fns[k.value].name == name
  {
    if fns == [] then None
    else
      var n := |fns| - 1;
      if fns[n].name == name then Some(n) else FindFn(fns[..n], name)
  }

  /** Between statements: the index of the next one, and the state. */
  datatype Place = At(i: nat, st: FnState)

  /** One statement that does not return. A call is one statement with everything its callee does; `fuel` bounds the
      statements of the callee, `depth` the nesting of calls. */
  function Advance(fns: seq<FnDef>, c: Ctx, body: seq<Stmt>, here: Ctx, syms: Syms, i: nat, st: FnState, fuel: nat,
                   depth: nat): Option<Place>
    requires i < |body|
    decreases fuel, 2
  {
    match body[i]
    case Goto(l) => (match FindLabel(body, l) case None => None case Some(k) => Some(At(k, st)))
    case JumpIf(cond, l) =>
      if CondCode(cond).None? || st.flags.None? then None
      else
        (match Holds(CondCode(cond).value, st.flags.value)
         case None => None
         case Some(taken) =>
           if !taken then Some(At(i + 1, st))
           else (match FindLabel(body, l) case None => None case Some(k) => Some(At(k, st))))
    case CallFn(g, args) =>
      (match Called(fns, c, here, syms, g, args, st, fuel, depth) case None => None case Some(r) => Some(At(i + 1, r)))
    case s => (match Straight(s, here, syms, st) case None => None case Some(r) => Some(At(i + 1, r)))
  }

  /** A whole call, its operands named by `here`. */
  function Called(fns: seq<FnDef>, c: Ctx, here: Ctx, syms: Syms, g: string, args: seq<Expr>, st: FnState, fuel: nat,
                  depth: nat): Option<FnState>
    decreases fuel, 1
  {
    var six := FirstSix(args);
    if depth == 0 || FindFn(fns, g).None? then None
    else
      match ArgValues(six, here, syms, st)
      case None => None
      case Some(vs) =>
        match Execute(fns, c, fns[FindFn(fns, g).value], syms, 0, Enter(AfterAll(six, st), vs), fuel, depth - 1)
        case None => None
        case Some(callee) => Some(Back(AfterAll(six, st), callee))
  }

  /** A function's body from statement i to its return. None is a fault, a program that needs what is not known, or one
      that has not returned within `fuel` and `depth`. */
  function Execute(fns: seq<FnDef>, c: Ctx, f: FnDef, syms: Syms, i: nat, st: FnState, fuel: nat,
                   depth: nat): Option<FnState>
    decreases fuel, 0
  {
    var here := Inside(f, c);
    if fuel == 0 then None
    else if i >= |f.body| || f.body[i].Ret? then Some(st)
    else if f.body[i].RetVal? then
      match Operand(f.body[i].result, here, syms, st)
      case None => None
      case Some(v) =>
        var st1 := After(f.body[i].result, st);
        Some(st1.(regs := st.regs[RAX := v], known := st1.known + {RAX}))
    else
      match Advance(fns, c, f.body, here, syms, i, st, fuel - 1, depth)
      case None => None
      case Some(p) => Execute(fns, c, f, syms, p.i, p.st, fuel - 1, depth)
  }

  /** n top-level statements. */
  function RunMain(fns: seq<FnDef>, c: Ctx, prog: seq<Stmt>, syms: Syms, p: Place, n: nat, fuel: nat,
                   depth: nat): Option<Place>
    decreases n
  {
    if n == 0 then Some(p)
    else if p.i >= |prog| then None
    else
      match Advance(fns, c, prog, c, syms, p.i, p.st, fuel, depth)
      case None => None
      case Some(q) => RunMain(fns, c, prog, syms, q, n - 1, fuel, depth)
  }
}
