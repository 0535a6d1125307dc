/** `_eval` computes the value of the expression and says exactly what it clobbers. */
module ExprProofs {
  import opened Wrappers
  import opened Words
  import opened Memory
  import opened Regs
  import opened Isa
  import opened Assembly
  import opened Ast
  import opened Codegen
  import opened Semantics

  /** The meaning of an operand over unbounded integers, in the state before the statement. */
  function Value(e: Expr, c: Ctx, m: Machine, syms: Syms): int {
    match e
    case Num(v) => v
    case RegName(n) => (match Resolve(n) case None => 0 case Some(r) => m.regs[r])
    case Ident(n) =>
      if n in c.args then m.regs[c.args[n]]
      else if n in c.locals then Load64(m.mem, Wrap(m.regs[RBP] + c.locals[n]))
      else if n in c.consts && n !in c.strings then c.consts[n]
      else if DataLabel(n) in syms && n in c.data then syms[DataLabel(n)]
      else if n in c.structs then c.structs[n].size
      else 0
    case FieldRef(s, f) =>
      if s in c.structs && f in c.structs[s].fields then c.structs[s].fields[f] else 0
    case Str(_) => 0
    case Bin(op, l, r) => Apply(op, Value(l, c, m, syms), Value(r, c, m, syms))
  }

  function Apply(op: BinOp, x: int, y: int): int {
    match op
    case Plus => x + y
    case Minus => x - y
    case Times => x * y
  }

  /** Function arguments live in the six argument registers, so never in r11, r12 or rsp. */
  ghost predicate WellFormed(c: Ctx) {
    forall a <- c.args :: c.args[a] in CALL_ARGS
  }

  predicate ReadsR12(e: Expr) {
    match e
    case RegName(n) => Resolve(n) == Some(R12)
    case Bin(_, l, r) => ReadsR12(l) || ReadsR12(r)
    case _ => false
  }

  /** r12 is only read before the first right operand has been evaluated into it. */
  predicate R12Intact(e: Expr) {
    e.Bin? ==> R12Intact(e.left) && (if Compound(e.left) then !ReadsR12(e.right) else R12Intact(e.right))
  }

  /** Stack slots the code needs at once. */
  function Depth(e: Expr): nat {
    match e
    case Bin(_, l, r) => if Depth(l) > Depth(r) then Depth(l) else Depth(r) + 1
    case _ => 0
  }

  /** The name stands for the address of a data item. */
  predicate UsesAddress(n: string, c: Ctx) {
    n !in c.args && n !in c.locals && !(n in c.consts && n !in c.strings) && n in c.data
  }

  /** Every local slot and data label the operand reads exists; slots lie at or above `lo`. */
  ghost predicate Readable(e: Expr, c: Ctx, m: Machine, lo: int, syms: Syms) {
    match e
    case Ident(n) =>
      && (n !in c.args && n in c.locals ==> Wrap(m.regs[RBP] + c.locals[n]) >= lo)
      && (UsesAddress(n, c) ==> DataLabel(n) in syms)
    case Bin(_, l, r) => Readable(l, c, m, lo, syms) && Readable(r, c, m, lo, syms)
    case _ => true
  }

  ghost predicate Agree(m: Machine, m': Machine, lo: int) {
    && (forall r: Reg | r != R11 && r != R12 && r != RSP :: m'.regs[r] == m.regs[r])
    && SameFrom(m.mem, m'.mem, lo)
  }

  /** Agreement on everything an operand other than r12 can read: r15 is out of its reach too. */
  ghost predicate AgreeUser(m: Machine, m': Machine, lo: int) {
    && (forall r: Reg | r != R11 && r != R12 && r != R15 && r != RSP :: m'.regs[r] == m.regs[r])
    && SameFrom(m.mem, m'.mem, lo)
  }

  // ---- what the code computes ----

  /** The value the code computes for `e` when r12 holds `r12` at its start: a register operand r12 is
      read where the code stands, after compound left operands have replaced it. */
  function Seen(e: Expr, r12: Word, c: Ctx, m: Machine, syms: Syms): Word {
    match e
    case Bin(op, l, r) => Wrap(Apply(op, Seen(l, r12, c, m, syms), Seen(r, R12After(l, r12, c, m, syms), c, m, syms)))
    case _ => Wrap(Value(e, c, m.Set(R12, r12), syms))
  }

  /** What r12 holds when `e` has been evaluated into another register: the right operand of a compound. */
  function R12After(e: Expr, r12: Word, c: Ctx, m: Machine, syms: Syms): Word {
    match e
    case Bin(_, l, r) => Seen(r, R12After(l, r12, c, m, syms), c, m, syms)
    case _ => r12
  }

  /** The flags the last operation of a compound leaves; a simple operand changes none. */
  function SeenFlags(e: Expr, r12: Word, c: Ctx, m: Machine, syms: Syms): Flags {
    match e
    case Bin(op, l, r) =>
      var a, b := Seen(l, r12, c, m, syms), R12After(e, r12, c, m, syms);
      CombineFlags(op, a, b)
    case _ => m.flags
  }

  /** What evaluating into `dst` leaves behind. */
  ghost predicate Evaluated(e: Expr, dst: Reg, v: Word, m: Machine, m': Machine) {
    && m'.regs[dst] == v
    && SameOutside(m.mem, m'.mem, m.regs[RSP] as int - 8 * Depth(e), m.regs[RSP])
    && (forall r: Reg | r != dst && r != R11 && r != R12 :: m'.regs[r] == m.regs[r])
    && (!Compound(e) ==> m' == m.Set(dst, v))
  }

  /** And in the scratch registers and flags: the value in r11, the right operand in r12. */
  ghost predicate Leftovers(e: Expr, dst: Reg, c: Ctx, m: Machine, m': Machine, syms: Syms) {
    && m'.flags == SeenFlags(e, m.regs[R12], c, m, syms)
    && (e.Bin? ==> m'.regs[R11] == Seen(e, m.regs[R12], c, m, syms))
    && (dst != R12 ==> m'.regs[R12] == R12After(e, m.regs[R12], c, m, syms))
  }

  lemma {:induction false} ValueSame(e: Expr, c: Ctx, m: Machine, m': Machine, lo: int, syms: Syms)
    requires WellFormed(c) && Readable(e, c, m, lo, syms) && AgreeUser(m, m', lo)
    requires ReadsR12(e) ==> m'.regs[R12] == m.regs[R12]
    ensures Value(e, c, m', syms) == Value(e, c, m, syms) && Readable(e, c, m', lo, syms)
  {
    match e
    case Bin(_, l, r) =>
      ValueSame(l, c, m, m', lo, syms);
      ValueSame(r, c, m, m', lo, syms);
    case Ident(n) =>
      if n !in c.args && n in c.locals {
        Load64Same(m.mem, m'.mem, Wrap(m.regs[RBP] + c.locals[n]));
      }
    case RegName(n) => ResolveIsUser(n);
    case Num(_) =>
    case FieldRef(_, _) =>
    case Str(_) =>
  }

  lemma MoveCorrect(dst: Reg, src: Reg, m: Machine, syms: Syms)
    ensures Run(Move(dst, src), m, syms) == Some(m.Set(dst, m.regs[src]))
  {
    if dst == src {
      assert m.regs[dst := m.regs[dst]] == m.regs;
    } else {
      Run1(Ins(MovRR(dst, src)), m, syms);
    }
  }

  lemma ImmCorrect(dst: Reg, v: int, m: Machine, syms: Syms)
    ensures Run(Imm(dst, v), m, syms) == Some(m.Set(dst, Wrap(v)))
  {
    Run1(Ins(MovImm(dst, Wrap(v))), m, syms);
  }

  lemma LoadSlotCorrect(dst: Reg, off: int, m: Machine, syms: Syms)
    requires LoadSlot(dst, off).Some?
    ensures Run(LoadSlot(dst, off).value, m, syms) == Some(m.Set(dst, Load64(m.mem, Wrap(m.regs[RBP] + off))))
  {
    Run1(Ins(LoadI(W64, dst, Slot(off))), m, syms);
  }

  lemma LeafCorrect(e: Expr, dst: Reg, c: Ctx, m: Machine, syms: Syms)
    requires !Compound(e) && ExprCode(e, dst, c).Some?
    requires Readable(e, c, m, 0, syms)
    ensures Run(ExprCode(e, dst, c).value, m, syms) == Some(m.Set(dst, Wrap(Value(e, c, m, syms))))
  {
    hide Run, Load64, Resolve, Move, Imm, LoadSlot;
    var v := Value(e, c, m, syms);
    if e.Ident? {
      if e.name in c.args {
        MoveCorrect(dst, c.args[e.name], m, syms);
      } else if e.name in c.locals {
        LoadSlotCorrect(dst, c.locals[e.name], m, syms);
      } else if e.name in c.data && !(e.name in c.consts && e.name !in c.strings) {
        Run1(LeaTo(dst, DataLabel(e.name)), m, syms);
      } else {
        ImmCorrect(dst, v, m, syms);
      }
    } else if e.RegName? {
      MoveCorrect(dst, Resolve(e.name).value, m, syms);
    } else {
      ImmCorrect(dst, v, m, syms);
    }
  }

  /** What is seen depends on neither scratch registers nor memory below rsp, but for the given r12. */
  lemma {:induction false} SeenSame(e: Expr, x: Word, c: Ctx, m: Machine, m': Machine, lo: int, syms: Syms)
    requires WellFormed(c) && Readable(e, c, m, lo, syms) && AgreeUser(m, m', lo)
    ensures Seen(e, x, c, m', syms) == Seen(e, x, c, m, syms) &&
            R12After(e, x, c, m', syms) == R12After(e, x, c, m, syms)
    ensures Readable(e, c, m', lo, syms)
  {
    if e.Bin? {
      SeenSame(e.left, x, c, m, m', lo, syms);
      SeenSame(e.right, R12After(e.left, x, c, m, syms), c, m, m', lo, syms);
    } else {
      LeafReadable(e, c, m, m.Set(R12, x), lo, syms);
      ValueSame(e, c, m.Set(R12, x), m'.Set(R12, x), lo, syms);
      LeafReadable(e, c, m'.Set(R12, x), m', lo, syms);
    }
  }

  lemma LeafReadable(e: Expr, c: Ctx, m: Machine, m': Machine, lo: int, syms: Syms)
    requires !Compound(e) && Readable(e, c, m, lo, syms) && m'.regs[RBP] == m.regs[RBP]
    ensures Readable(e, c, m', lo, syms)
  {
  }

  /** The code of every tree computes what it sees: rsp is restored, memory outside the stack slots it needs is
      unchanged, and only the destination, r11, r12 and flags change. */
  lemma {:induction false} EvalSees(e: Expr, dst: Reg, c: Ctx, m: Machine, syms: Syms)
    requires WellFormed(c) && ExprCode(e, dst, c).Some? && dst != RSP
    requires 8 * Depth(e) <= m.regs[RSP] && Readable(e, c, m, m.regs[RSP], syms)
    ensures Run(ExprCode(e, dst, c).value, m, syms).Some?
    ensures Evaluated(e, dst, Seen(e, m.regs[R12], c, m, syms), m, Run(ExprCode(e, dst, c).value, m, syms).value)
    ensures Leftovers(e, dst, c, m, Run(ExprCode(e, dst, c).value, m, syms).value, syms)
    decreases e, 1
  {
    if !Compound(e) {
      WeakenReadable(e, c, m, m.regs[RSP], 0, syms);
      LeafCorrect(e, dst, c, m, syms);
      assert m.Set(R12, m.regs[R12]) == m;
    } else {
      BinSees(e.op, e.left, e.right, dst, c, m, syms);
    }
  }

  /** Left operand into r11, then onto the stack. */
  lemma LeftSaved(l: Expr, c: Ctx, m: Machine, syms: Syms) returns (m2: Machine)
    requires WellFormed(c) && ExprCode(l, R11, c).Some?
    requires 8 * Depth(l) <= m.regs[RSP] && 8 <= m.regs[RSP] && Readable(l, c, m, m.regs[RSP], syms)
    ensures Run(ExprCode(l, R11, c).value + [Ins(Push(R11))], m, syms) == Some(m2)
    ensures m2.regs[RSP] == m.regs[RSP] - 8 && Load64(m2.mem, m2.regs[RSP]) == Seen(l, m.regs[R12], c, m, syms)
    ensures Agree(m, m2, m.regs[RSP]) && m2.regs[R12] == R12After(l, m.regs[R12], c, m, syms)
    ensures SameOutside(m.mem, m2.mem, m.regs[RSP] as int - 8 * (if Depth(l) > 1 then Depth(l) else 1), m.regs[RSP])
    decreases l, 2
  {
    hide Load64, Store64, Run, Seen, SeenFlags;
    var lc := ExprCode(l, R11, c).value;
    EvalSees(l, R11, c, m, syms);
    var m1 := Run(lc, m, syms).value;
    Run1(Ins(Push(R11)), m1, syms);
    m2 := PushValue(m1, m1.regs[R11]);
    LoadStore64(m1.mem, m.regs[RSP] - 8, m1.regs[R11]);
    RunConcat(lc, [Ins(Push(R11))], m, syms);
  }

  /** Right operand into r12; its pushes stay below the saved left value. */
  lemma RightDone(r: Expr, c: Ctx, m: Machine, m2: Machine, syms: Syms) returns (m3: Machine)
    requires WellFormed(c) && ExprCode(r, R12, c).Some?
    requires m.regs[RSP] >= 8 && m2.regs[RSP] == m.regs[RSP] - 8 && 8 * Depth(r) <= m2.regs[RSP]
    requires Readable(r, c, m, m.regs[RSP], syms) && Agree(m, m2, m.regs[RSP])
    ensures Run(ExprCode(r, R12, c).value, m2, syms) == Some(m3)
    ensures m3.regs[RSP] == m2.regs[RSP] && Load64(m3.mem, m3.regs[RSP]) == Load64(m2.mem, m2.regs[RSP])
    ensures m3.regs[R12] == Seen(r, m2.regs[R12], c, m, syms) && Agree(m, m3, m.regs[RSP])
    ensures SameOutside(m2.mem, m3.mem, m2.regs[RSP] as int - 8 * Depth(r), m2.regs[RSP])
    decreases r, 2
  {
    hide Load64, Run, Seen, SeenFlags, Leftovers;
    SeenSame(r, m2.regs[R12], c, m, m2, m.regs[RSP], syms);
    WeakenReadable(r, c, m2, m.regs[RSP], m2.regs[RSP], syms);
    EvalSees(r, R12, c, m2, syms);
    m3 := Run(ExprCode(r, R12, c).value, m2, syms).value;
    Load64Same(m2.mem, m3.mem, m2.regs[RSP]);
  }

  lemma {:induction false} BinSees(op: BinOp, l: Expr, r: Expr, dst: Reg, c: Ctx, m: Machine, syms: Syms)
    requires var e := Bin(op, l, r);
             && WellFormed(c) && ExprCode(e, dst, c).Some? && dst != RSP
             && 8 * Depth(e) <= m.regs[RSP] && Readable(e, c, m, m.regs[RSP], syms)
    ensures var e := Bin(op, l, r);
            && Run(ExprCode(e, dst, c).value, m, syms).Some?
            && Evaluated(e, dst, Seen(e, m.regs[R12], c, m, syms), m, Run(ExprCode(e, dst, c).value, m, syms).value)
            && Leftovers(e, dst, c, m, Run(ExprCode(e, dst, c).value, m, syms).value, syms)
    decreases Bin(op, l, r), 0
  {
    hide Load64, Run, AluFlags, MulFlags, Seen, R12After, SeenFlags, Evaluated, Leftovers, Apply, Combine, CombineFlags;
    var lc, rc := ExprCode(l, R11, c).value, ExprCode(r, R12, c).value;
    var save, tail := [Ins(Push(R11))], [Ins(Pop(R11)), Combine(op)] + Move(dst, R11);
    var a := Seen(l, m.regs[R12], c, m, syms);
    var m2 := LeftSaved(l, c, m, syms);
    var m3 := RightDone(r, c, m, m2, syms);
    var m4 := Combined(op, a, m3.regs[R12], m3, dst, syms);
    BinLeaves(op, l, r, dst, c, m, m2, m3, m4, syms);
    hide ExprCode;
    RunConcat(lc + save, rc, m, syms);
    RunConcat(lc + save + rc, tail, m, syms);
  }

  /** The stages of a compound, put together. */
  lemma BinLeaves(op: BinOp, l: Expr, r: Expr, dst: Reg, c: Ctx, m: Machine, m2: Machine, m3: Machine, m4: Machine,
                  syms: Syms)
    requires dst != RSP && m.regs[RSP] >= 8 && m2.regs[RSP] == m.regs[RSP] - 8 == m3.regs[RSP] &&
             m4.regs[RSP] == m.regs[RSP]
    requires m2.regs[R12] == R12After(l, m.regs[R12], c, m, syms) && m3.regs[R12] == Seen(r, m2.regs[R12], c, m, syms)
    requires SameOutside(m.mem, m2.mem, m.regs[RSP] as int - 8 * (if Depth(l) > 1 then Depth(l) else 1), m.regs[RSP])
    requires SameOutside(m2.mem, m3.mem, m2.regs[RSP] as int - 8 * Depth(r), m2.regs[RSP]) && m4.mem == m3.mem
    requires forall q: Reg | q != R11 && q != R12 && q != RSP :: m3.regs[q] == m.regs[q]
    requires forall q: Reg | q != dst && q != R11 && q != RSP :: m4.regs[q] == m3.regs[q]
    requires var v := Wrap(Apply(op, Seen(l, m.regs[R12], c, m, syms), m3.regs[R12]));
             m4.regs[dst] == v && m4.regs[R11] == v
    requires m4.flags == CombineFlags(op, Seen(l, m.regs[R12], c, m, syms), m3.regs[R12])
    ensures Evaluated(Bin(op, l, r), dst, Seen(Bin(op, l, r), m.regs[R12], c, m, syms), m, m4)
    ensures Leftovers(Bin(op, l, r), dst, c, m, m4, syms)
  {
    hide Apply, CombineFlags;
    assert Depth(Bin(op, l, r)) >= Depth(l) && Depth(Bin(op, l, r)) >= Depth(r) + 1;
  }

  /** Flags of the combining instruction. */
  function CombineFlags(op: BinOp, a: Word, b: Word): Flags {
    match op case Plus => AluFlags(ADD, a, b) case Minus => AluFlags(SUB, a, b) case Times => MulFlags(a, b)
  }

  /** The tail of a compound evaluation: pop, combine, move. */
  lemma Combined(op: BinOp, a: Word, b: Word, m: Machine, dst: Reg, syms: Syms) returns (m': Machine)
    requires Load64(m.mem, m.regs[RSP]) == a && m.regs[R12] == b
    requires m.regs[RSP] + 8 < TWO64 && dst != RSP
    ensures Run([Ins(Pop(R11)), Combine(op)] + Move(dst, R11), m, syms) == Some(m')
    ensures m'.mem == m.mem && m'.regs[RSP] == m.regs[RSP] + 8 && m'.flags == CombineFlags(op, a, b)
    ensures m'.regs[dst] == Wrap(Apply(op, a, b)) && m'.regs[R11] == Wrap(Apply(op, a, b))
    ensures forall r: Reg | r != dst && r != R11 && r != RSP :: m'.regs[r] == m.regs[r]
  {
    hide Load64, AluFlags, MulFlags;
    var m1 := Exec(Pop(R11), m).value;
    var m2 := Step(Combine(op), m1, syms).value;
    m' := if dst == R11 then m2 else m2.Set(dst, m2.regs[R11]);
    assert Run(Move(dst, R11), m2, syms) == Some(m') by {
      if dst != R11 { Run1(Ins(MovRR(dst, R11)), m2, syms); }
    }
    RunCons(Combine(op), Move(dst, R11), m1, syms);
    RunCons(Ins(Pop(R11)), [Combine(op)] + Move(dst, R11), m, syms);
    assert [Ins(Pop(R11))] + ([Combine(op)] + Move(dst, R11)) == [Ins(Pop(R11)), Combine(op)] + Move(dst, R11);
  }

  /** Arithmetic on wrapped operands is the integer result, wrapped. */
  lemma ApplyWraps(op: BinOp, lv: int, rv: int)
    ensures Wrap(Apply(op, Wrap(lv), Wrap(rv))) == Wrap(Apply(op, lv, rv))
  {
    WrapAdd(lv, rv);
    WrapMul(lv, rv);
  }

  lemma {:induction false} WeakenReadable(e: Expr, c: Ctx, m: Machine, hi: int, lo: int, syms: Syms)
    requires lo <= hi && Readable(e, c, m, hi, syms)
    ensures Readable(e, c, m, lo, syms)
  {
    if e.Bin? {
      WeakenReadable(e.left, c, m, hi, lo, syms);
      WeakenReadable(e.right, c, m, hi, lo, syms);
    }
  }

  lemma {:induction false} R12IntactIfUnread(e: Expr)
    requires !ReadsR12(e)
    ensures R12Intact(e)
  {
    if e.Bin? {
      R12IntactIfUnread(e.left);
      R12IntactIfUnread(e.right);
    }
  }

  // ---- when what is seen is the value ----

  /** A tree that does not read r12, or reads it in time, sees its value. */
  lemma {:induction false} SeenIsValue(e: Expr, x: Word, c: Ctx, m: Machine, syms: Syms)
    requires R12Intact(e) && (ReadsR12(e) ==> x == m.regs[R12]) && WellFormed(c)
    ensures Seen(e, x, c, m, syms) == Wrap(Value(e, c, m, syms))
    ensures R12After(e, x, c, m, syms) == if e.Bin? then Wrap(Value(e.right, c, m, syms)) else x
  {
    if e.Bin? {
      SeenIsValue(e.left, x, c, m, syms);
      if Compound(e.left) {
        R12IntactIfUnread(e.right);
      }
      SeenIsValue(e.right, R12After(e.left, x, c, m, syms), c, m, syms);
      ApplyWraps(e.op, Value(e.left, c, m, syms), Value(e.right, c, m, syms));
    } else {
      LeafIgnoresR12(e, x, c, m, syms);
    }
  }

  lemma LeafIgnoresR12(e: Expr, x: Word, c: Ctx, m: Machine, syms: Syms)
    requires !Compound(e) && WellFormed(c) && (ReadsR12(e) ==> x == m.regs[R12])
    ensures Value(e, c, m.Set(R12, x), syms) == Value(e, c, m, syms)
  {
    hide Load64;
    if e.RegName? {
      hide Resolve;
    }
  }

  /** Expression compilation, exactly: the destination receives the value mod 2^64 if and only if what the
      tree sees is its value, and every tree that reads r12 only in time does see it. */
  lemma EvalRightIff(e: Expr, dst: Reg, c: Ctx, m: Machine, syms: Syms) returns (m': Machine)
    requires WellFormed(c) && ExprCode(e, dst, c).Some? && dst != RSP
    requires 8 * Depth(e) <= m.regs[RSP] && Readable(e, c, m, m.regs[RSP], syms)
    ensures Run(ExprCode(e, dst, c).value, m, syms) == Some(m')
    ensures m'.regs[dst] == Wrap(Value(e, c, m, syms)) <==>
            Seen(e, m.regs[R12], c, m, syms) == Wrap(Value(e, c, m, syms))
    ensures R12Intact(e) ==> m'.regs[dst] == Wrap(Value(e, c, m, syms))
    ensures SameFrom(m.mem, m'.mem, m.regs[RSP]) && forall r: Reg | r != dst && r != R11 && r != R12 ::
            m'.regs[r] == m.regs[r]
  {
    hide Run, Seen, Value, Readable, R12Intact;
    EvalSees(e, dst, c, m, syms);
    m' := Run(ExprCode(e, dst, c).value, m, syms).value;
    if R12Intact(e) {
      SeenIsValue(e, m.regs[R12], c, m, syms);
    }
  }

  /** A tree whose reads of r12 come in time: the destination receives the value mod 2^64, rsp is restored,
      memory outside the stack slots it needs is unchanged, and only r11, r12 and flags are clobbered. */
  lemma EvalCorrect(e: Expr, dst: Reg, c: Ctx, m: Machine, syms: Syms)
    requires WellFormed(c) && ExprCode(e, dst, c).Some? && R12Intact(e) && dst != RSP
    requires 8 * Depth(e) <= m.regs[RSP] && Readable(e, c, m, m.regs[RSP], syms)
    ensures Run(ExprCode(e, dst, c).value, m, syms).Some?
    ensures Evaluated(e, dst, Wrap(Value(e, c, m, syms)), m, Run(ExprCode(e, dst, c).value, m, syms).value)
    ensures Leftovers(e, dst, c, m, Run(ExprCode(e, dst, c).value, m, syms).value, syms)
  {
    hide Run, Evaluated, Leftovers, Readable;
    EvalSees(e, dst, c, m, syms);
    SeenIsValue(e, m.regs[R12], c, m, syms);
  }

  /** One late read, whatever the operation: the register to the right of a compound left operand is seen as
      that operand's own right operand, so the result is right exactly when the operation does not tell the
      two apart; a sum or difference always does. */
  lemma LateR12Read(op: BinOp, l: Expr, name: string, dst: Reg, c: Ctx, m: Machine, syms: Syms) returns (m': Machine)
    requires WellFormed(c) && l.Bin? && R12Intact(l) && Resolve(name) == Some(R12) && dst != RSP
    requires ExprCode(Bin(op, l, RegName(name)), dst, c).Some?
    requires 8 * Depth(l) + 8 <= m.regs[RSP] && Readable(l, c, m, m.regs[RSP], syms)
    ensures var e := Bin(op, l, RegName(name));
            var lv, seen := Value(l, c, m, syms), Wrap(Value(l.right, c, m, syms));
            && Run(ExprCode(e, dst, c).value, m, syms) == Some(m') && m'.regs[dst] == Wrap(Apply(op, lv, seen))
            && (m'.regs[dst] == Wrap(Value(e, c, m, syms)) <==>
                 Wrap(Apply(op, lv, seen)) == Wrap(Apply(op, lv, m.regs[R12])))
            && (op != Times ==> (m'.regs[dst] == Wrap(Value(e, c, m, syms)) <==> seen == m.regs[R12]))
  {
    hide Run, Readable, Evaluated, ExprCode;
    var e := Bin(op, l, RegName(name));
    var lv, seen := Value(l, c, m, syms), Wrap(Value(l.right, c, m, syms));
    assert Readable(e, c, m, m.regs[RSP], syms) by { LateReadable(op, l, name, c, m, syms); }
    m' := EvalRightIff(e, dst, c, m, syms);
    EvalSees(e, dst, c, m, syms);
    assert m'.regs[dst] == Seen(e, m.regs[R12], c, m, syms) by {
      EvaluatedValue(e, dst, Seen(e, m.regs[R12], c, m, syms), m, m');
    }
    SeenIsValue(l, m.regs[R12], c, m, syms);
    ApplyWraps(op, lv, seen);
    if op != Times {
      SumDetermines(op, lv, seen, m.regs[R12]);
    }
  }

  lemma LateReadable(op: BinOp, l: Expr, name: string, c: Ctx, m: Machine, syms: Syms)
    requires Readable(l, c, m, m.regs[RSP], syms)
    ensures Readable(Bin(op, l, RegName(name)), c, m, m.regs[RSP], syms)
  {
  }

  lemma EvaluatedValue(e: Expr, dst: Reg, v: Word, m: Machine, m': Machine)
    requires Evaluated(e, dst, v, m, m')
    ensures m'.regs[dst] == v
  {
  }

  lemma SumDetermines(op: BinOp, x: int, y: Word, z: Word)
    requires op != Times
    ensures Wrap(Apply(op, x, y)) == Wrap(Apply(op, x, z)) <==> y == z
  {
    if op == Plus { SameResidue(x + y, x + z); } else { SameResidue(x - y, x - z); }
  }

  lemma SameResidue(a: int, b: int)
    requires -TWO64 < a - b < TWO64
    ensures Wrap(a) == Wrap(b) <==> a == b
  {
  }
}
