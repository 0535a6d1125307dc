/** A label-level interpreter for programs of labels, goto, cmp, jump_if and cpu: statements. */
module SourceLanguage {
  import opened Wrappers
  import opened Words
  import opened Regs
  import opened Isa
  import opened Ast
  import opened Codegen
  import opened StmtProofs

  /** `at` is the index of the next statement; only user registers of `regs` are meaningful. */
  datatype Src = Src(at: nat, regs: RegFile, flags: Flags)

  /** The next state, a jump to a label outside the program, its end, or a fault. */
  datatype SrcOutcome = Next(s: Src) | Left(target: string, s: Src) | Halted | Faulted

  /** A number, a register, or an integer constant. */
  predicate SimpleOperand(e: Expr, consts: map<string, int>) {
    match e
    case Num(_) => true
    case RegName(n) => Resolve(n).Some?
    case Ident(n) => n in consts
    case _ => false
  }

  function OperandWord(e: Expr, consts: map<string, int>, regs: RegFile): Word
    requires SimpleOperand(e, consts)
  {
    match e
    case Num(v) => Wrap(v)
    case RegName(n) => regs[Resolve(n).value]
    case Ident(n) => Wrap(consts[n])
  }

  /** The statements of the simulated language. */
  predicate Simple(s: Stmt, consts: map<string, int>) {
    match s
    case Label(_) | Goto(_) => true
    case JumpIf(cond, _) => CondCode(cond).Some?
    case Cmp(l, r) => SimpleOperand(l, consts) && SimpleOperand(r, consts)
    case CpuBin(_, d, v) => Resolve(d).Some? && SimpleOperand(v, consts)
    case CpuUnary(_, d) => Resolve(d).Some?
    case _ => false
  }

  predicate SimpleProgram(prog: seq<Stmt>, consts: map<string, int>) {
    forall k | 0 <= k < |prog| :: Simple(prog[k], consts)
  }

  predicate Defines(prog: seq<Stmt>, l: string, k: int) {
    0 <= k < |prog| && prog[k] == Label(l)
  }

  /** Position of a label's definition. */
  function FindLabel(prog: seq<Stmt>, l: string): (k: Option<nat>)
    ensures k.Some? ==> Defines(prog, l, k.value)
    ensures k.None? ==> forall j :: !Defines(prog, l, j)
    decreases |prog|
  {
    if prog == [] then None
    else
      var n := |prog| - 1;
      if prog[n] == Label(l) then Some(n)
      else
        var r := FindLabel(prog[..n], l);
        assert forall j | Defines(prog, l, j) :: Defines(prog[..n], l, j);
        r
  }

  function JumpTo(prog: seq<Stmt>, l: string, s: Src): SrcOutcome {
    match FindLabel(prog, l) case None => Left(l, s) case Some(k) => Next(s.(at := k))
  }

  /** One statement. Jumping on an undefined flag and dividing by zero are faults. */
  function SrcStep(prog: seq<Stmt>, consts: map<string, int>, s: Src): SrcOutcome
    requires SimpleProgram(prog, consts)
  {
    if s.at >= |prog| then Halted
    else
      var next := s.at + 1;
      match prog[s.at]
      case Label(_) => Next(s.(at := next))
      case Goto(l) => JumpTo(prog, l, s)
      case JumpIf(cond, l) =>
        (match Holds(CondCode(cond).value, s.flags)
         case None => Faulted
         case Some(taken) => if taken then JumpTo(prog, l, s) else Next(s.(at := next)))
      case Cmp(l, r) =>
        Next(s.(at := next, flags := AluFlags(CMP, OperandWord(l, consts, s.regs), OperandWord(r, consts, s.regs))))
      case CpuBin(op, d, v) =>
        var dst := Resolve(d).value;
        (match OpSpec(op, s.regs[dst], OperandWord(v, consts, s.regs), s.flags)
         case None => Faulted
         case Some(r) => Next(Src(next, s.regs[dst := r.0], r.1)))
      case CpuUnary(op, d) =>
        var dst := Resolve(d).value;
        var a := s.regs[dst];
        Next(Src(next, s.regs[dst := UnaryResult(UnaryOf(op), a)], UnaryFlags(UnaryOf(op), a, s.flags)))
  }

  function SrcRun(prog: seq<Stmt>, consts: map<string, int>, s: Src, n: nat): SrcOutcome
    requires SimpleProgram(prog, consts)
    decreases n
  {
    if n == 0 then Next(s)
    else (match SrcStep(prog, consts, s) case Next(s') => SrcRun(prog, consts, s', n - 1) case o => o)
  }

  /** What a condition says about the last comparison, in arithmetic terms. */
  function Relation(cc: Cc, a: Word, b: Word): bool {
    match cc
    case 2 => a < b
    case 3 => a >= b
    case 4 => a == b
    case 5 => a != b
    case 6 => a <= b
    case 7 => a > b
    case 12 => Signed(a) < Signed(b)
    case 13 => Signed(a) >= Signed(b)
    case 14 => Signed(a) <= Signed(b)
    case 15 => Signed(a) > Signed(b)
    case _ => false
  }

  predicate Comparison(cc: Cc) {
    2 <= cc <= 7 || 12 <= cc
  }

  /** After `cmp a, b` every comparison condition branches on the relation it is named after. */
  lemma CompareMeaning(cc: Cc, a: Word, b: Word)
    requires Comparison(cc)
    ensures Holds(cc, AluFlags(CMP, a, b)) == Some(Relation(cc, a, b))
  {
    CompareFlags(a, b);
  }

  lemma ConditionNames()
    ensures CondCode("eq") == Some(4) && CondCode("neq") == Some(5)
    ensures CondCode("lt") == Some(12) && CondCode("gte") == Some(13) && CondCode("lte") == Some(14) &&
            CondCode("gt") == Some(15)
    ensures CondCode("below") == Some(2) && CondCode("abe") == Some(3) && CondCode("be") == Some(6) &&
            CondCode("above") == Some(7)
  {
  }

  lemma CompareFlags(a: Word, b: Word)
    ensures var f := AluFlags(CMP, a, b);
            && f.zf == Some(a == b) && f.cf == Some(a < b)
            && Differ(f.sf, f.of) == Some(Signed(a) < Signed(b))
  {
    var d := Wrap(a - b);
    assert d == if a >= b then a - b else a - b + TWO64;
  }
}
