/** A recursive function, from its source text's tree to the machine: each activation keeps its own local. */
module FnExample {
  import opened Wrappers
  import opened Words
  import opened Regs
  import opened Isa
  import opened Assembly
  import opened Ast
  import opened Codegen
  import opened Semantics
  import opened ExprProofs
  import opened MarshalProofs
  import opened StmtProofs
  import opened SourceLanguage
  import opened Frames
  import opened Flow
  import opened FnLanguage
  import opened FnStatements
  import opened FnSimulation

  /** `fn:triangle n`, with the local `kept` alive across the recursive call. */
  const BODY: seq<Stmt> :=
    [CpuBin(Set, "kept", Ident("n")), Cmp(Ident("n"), Num(0)), JumpIf("eq", "zero"),
     CallFn("triangle", [Bin(Minus, Ident("n"), Num(1))]), CpuBin(AddOp, "reg1", Ident("kept")), Stmt.Ret,
     Label("zero"), RetVal(Num(0))]

  const TRIANGLE: FnDef := FnDef("triangle", ["n"], [("kept", 8)], BODY)

  function Sum(n: nat): nat {
    n * (n + 1) / 2
  }

  lemma HalfOf(x: nat, n: nat)
    ensures (x + 2 * n) / 2 == x / 2 + n
  {
  }

  lemma SumNext(n: nat)
    requires n > 0
    ensures Sum(n) == Sum(n - 1) + n
  {
    assert n * (n + 1) == (n - 1) * n + 2 * n;
    HalfOf((n - 1) * n, n);
  }

  lemma SumStep(n: Word)
    requires n > 0
    ensures Wrap(Wrap(Sum(n - 1)) + n) == Wrap(Sum(n))
  {
    hide Sum;
    SumNext(n);
    WrapAdd(Sum(n - 1), n);
    WrapWord(n);
  }

  lemma Names(c: Ctx)
    ensures var here := Inside(TRIANGLE, c);
            && "n" in here.args && here.args["n"] == RDI && "kept" !in here.args
            && "kept" in here.locals && "n" !in here.locals && "reg1" !in here.locals
  {
    var here := Inside(TRIANGLE, c);
    assert ["n"][..0] == [] && [("kept", 8 as nat)][..0] == [];
    assert ArgRegs([]) == map[] && LocalSlots([]) == map[];
    assert here.args == map["n" := RDI];
    assert here.locals.Keys == {"kept"};
  }

  /** One statement of an execution. */
  lemma Unfold(fns: seq<FnDef>, c: Ctx, syms: Syms, i: nat, st: FnState, fuel: nat, depth: nat, q: Place)
    requires i < |BODY| && !BODY[i].Ret? && !BODY[i].RetVal? && fuel > 0
    requires Advance(fns, c, BODY, Inside(TRIANGLE, c), syms, i, st, fuel - 1, depth) == Some(q)
    ensures Execute(fns, c, TRIANGLE, syms, i, st, fuel, depth) ==
            Execute(fns, c, TRIANGLE, syms, q.i, q.st, fuel - 1, depth)
  {
    hide Advance, Inside;
  }

  /** The state at the conditional jump. */
  function AtJump(st: FnState, n: Word): FnState {
    st.(locals := st.locals["kept" := n], flags := Some(AluFlags(CMP, n, 0)))
  }

  lemma ReachesJump(fns: seq<FnDef>, c: Ctx, syms: Syms, n: Word, st: FnState, fuel: nat, depth: nat)
    requires RDI in st.known && st.regs[RDI] == n && fuel >= 2
    ensures Execute(fns, c, TRIANGLE, syms, 0, st, fuel, depth) ==
            Execute(fns, c, TRIANGLE, syms, 2, AtJump(st, n), fuel - 2, depth)
  {
    hide Execute, AluFlags, Inside;
    Names(c);
    Unfold(fns, c, syms, 0, st, fuel, depth, At(1, st.(locals := st.locals["kept" := n])));
    Unfold(fns, c, syms, 1, st.(locals := st.locals["kept" := n]), fuel - 1, depth, At(2, AtJump(st, n)));
  }

  lemma ZeroLabel()
    ensures FindLabel(BODY, "zero") == Some(6)
  {
    assert Defines(BODY, "zero", 6);
    var k := FindLabel(BODY, "zero");
    assert Defines(BODY, "zero", k.value);
  }

  lemma JumpTaken(fns: seq<FnDef>, c: Ctx, syms: Syms, n: Word, st: FnState, fuel: nat, depth: nat)
    requires fuel >= 1
    ensures Execute(fns, c, TRIANGLE, syms, 2, AtJump(st, n), fuel, depth) ==
            Execute(fns, c, TRIANGLE, syms, if n == 0 then 6 else 3, AtJump(st, n), fuel - 1, depth)
  {
    hide Execute, AluFlags, Inside, Holds;
    ConditionNames();
    CompareMeaning(4, n, 0);
    ZeroLabel();
    Unfold(fns, c, syms, 2, AtJump(st, n), fuel, depth, At(if n == 0 then 6 else 3, AtJump(st, n)));
  }

  /** The result for 0. */
  lemma ZeroReturns(fns: seq<FnDef>, c: Ctx, syms: Syms, st: FnState, fuel: nat, depth: nat)
    requires fuel >= 2
    ensures var r := Execute(fns, c, TRIANGLE, syms, 6, st, fuel, depth);
            r.Some? && RAX in r.value.known && r.value.regs[RAX] == 0
  {
    hide Inside;
    Unfold(fns, c, syms, 6, st, fuel, depth, At(7, st));
  }

  lemma EnterOne(st: FnState, n: Word)
    ensures RDI in Enter(st, [n]).known && Enter(st, [n]).regs[RDI] == n
  {
    var vs: seq<Word> := [n];
    assert vs[..0] == [] && CALL_ARGS[0] == RDI;
    assert RDI in (set i | 0 <= i < |vs| :: CALL_ARGS[i]);
  }

  const PREVIOUS: seq<Expr> := [Bin(Minus, Ident("n"), Num(1))]

  /** The state the recursive call is entered in. */
  lemma CallOperand(c: Ctx, syms: Syms, n: Word, st: FnState)
    requires RDI in st.known && st.regs[RDI] == n && n > 0
    ensures FirstSix(PREVIOUS) == PREVIOUS && ArgValues(PREVIOUS, Inside(TRIANGLE, c), syms, st) == Some([n - 1])
    ensures var entry := Enter(AfterAll(PREVIOUS, st), [n - 1]);
            RDI in entry.known && entry.regs[RDI] == n - 1 && AfterAll(PREVIOUS, st).locals == st.locals
  {
    hide Inside, Enter;
    Names(c);
    assert PREVIOUS[..0] == [];
    assert Operand(PREVIOUS[0], Inside(TRIANGLE, c), syms, st) == Some(n - 1);
    assert [] + [n - 1] == [n - 1];
    assert AfterAll([], st) == st && ArgValues([], Inside(TRIANGLE, c), syms, st) == Some([]);
    EnterOne(AfterAll(PREVIOUS, st), n - 1);
  }

  /** Adding the local behind the call, and returning. */
  lemma AddReturns(fns: seq<FnDef>, c: Ctx, syms: Syms, n: Word, s: Word, st: FnState, fuel: nat, depth: nat)
    requires fuel >= 2 && RAX in st.known && st.regs[RAX] == s && st.flags == None
    requires "kept" in st.locals && st.locals["kept"] == n
    ensures var r := Execute(fns, c, TRIANGLE, syms, 4, st, fuel, depth);
            r.Some? && RAX in r.value.known && r.value.regs[RAX] == Wrap(s + n)
  {
    hide Inside, Resolve, AluFlags;
    Names(c);
    VirtualResolves("reg1");
    var f := AluFlags(ADD, s, n);
    Unfold(fns, c, syms, 4, st, fuel, depth, At(5, st.(regs := st.regs[RAX := Wrap(s + n)], flags := Some(f))));
  }

  /** For every n: called with n, the function returns the sum of the numbers up to n, mod 2^64. */
  lemma {:induction false} TriangleReturns(fns: seq<FnDef>, c: Ctx, syms: Syms, n: Word, st: FnState, fuel: nat,
                                           depth: nat)
    requires FindFn(fns, "triangle").Some? && fns[FindFn(fns, "triangle").value] == TRIANGLE
    requires RDI in st.known && st.regs[RDI] == n && fuel >= 6 + 4 * n && depth >= n
    ensures var r := Execute(fns, c, TRIANGLE, syms, 0, st, fuel, depth);
            r.Some? && RAX in r.value.known && r.value.regs[RAX] == Wrap(Sum(n))
    decreases n
  {
    hide Execute, Inside, Sum, Enter, ArgValues, AfterAll, FindFn, AluFlags;
    ReachesJump(fns, c, syms, n, st, fuel, depth);
    JumpTaken(fns, c, syms, n, st, fuel - 2, depth);
    var st1 := AtJump(st, n);
    if n == 0 {
      ZeroReturns(fns, c, syms, st1, fuel - 3, depth);
      assert Sum(0) == 0 by { SumZero(); }
    } else {
      CallOperand(c, syms, n, st1);
      var entry := Enter(AfterAll(PREVIOUS, st1), [n - 1]);
      TriangleReturns(fns, c, syms, n - 1, entry, fuel - 4, depth - 1);
      var callee := Execute(fns, c, TRIANGLE, syms, 0, entry, fuel - 4, depth - 1).value;
      var back := Back(AfterAll(PREVIOUS, st1), callee);
      Unfold(fns, c, syms, 3, st1, fuel - 3, depth, At(4, back));
      AddReturns(fns, c, syms, n, Wrap(Sum(n - 1)), back, fuel - 4, depth);
      SumStep(n);
    }
  }

  lemma SumZero()
    ensures Sum(0) == 0
  {
  }

  // ---- on the machine ----

  /** A single argument. */
  lemma OneArgument(arg: Expr, here: Ctx, syms: Syms, st: FnState, n: Word)
    requires Operand(arg, here, syms, st) == Some(n)
    ensures FirstSix([arg]) == [arg] && ArgValues([arg], here, syms, st) == Some([n])
    ensures MaxDepth([arg]) == Depth(arg)
  {
    hide Operand, Depth;
    assert [arg][..0] == [] && MaxDepth([]) == 0;
    assert AfterAll([], st) == st && ArgValues([], here, syms, st) == Some([]);
    assert [] + [n] == [n];
  }

  lemma TriangleCalled(p: Fns, arg: Expr, here: Ctx, st: FnState, n: Word, syms: Syms)
    requires FindFn(p.defs, "triangle").Some? && p.defs[FindFn(p.defs, "triangle").value] == TRIANGLE
    requires Operand(arg, here, syms, st) == Some(n)
    ensures var r := Called(p.defs, p.c, here, syms, "triangle", [arg], st, 6 + 4 * n, n + 1);
            r.Some? && RAX in r.value.known && r.value.regs[RAX] == Wrap(Sum(n))
  {
    hide Operand, Execute, Enter, AfterAll, ArgValues, FirstSix, Sum, FindFn;
    OneArgument(arg, here, syms, st, n);
    EnterOne(AfterAll([arg], st), n);
    TriangleReturns(p.defs, p.c, syms, n, Enter(AfterAll([arg], st), [n]), 6 + 4 * n, n);
  }

  /** Every call of it in a loaded program, with stack for its frames: the items, and so the bytes, come back behind the
      call with the sum in rax and everything from rsp upward unchanged. */
  lemma TriangleRuns(x: Listing, p: Fns, pc: nat, arg: Expr, here: Ctx, st: FnState, n: Word, m: Machine, lo: int,
                     syms: Syms)
    returns (r: Machine)
    requires Ready(x, p) && FindFn(p.defs, "triangle").Some? && p.defs[FindFn(p.defs, "triangle").value] == TRIANGLE
    requires WellFormed(here) && CallCode("triangle", [arg], here).Some?
    requires Stands(x, pc, CallCode("triangle", [arg], here).value)
    requires Operand(arg, here, syms, st) == Some(n) && Slots(here, m, lo) && FrameMatch(here, st, m)
    requires 8 * Depth(arg) + 64 <= p.work && Need(p, n + 1) <= m.regs[RSP]
    ensures Reaches(x, Spot(pc, m), Spot(pc + |CallCode("triangle", [arg], here).value|, r), syms)
    ensures r.regs[RAX] == Wrap(Sum(n)) && SameFrame(m, r, m.regs[RSP])
  {
    hide Ready, FindFn, WellFormed, CallCode, Stands, Reaches, Operand, Slots, LocalsMatch, Need, Called, Sum, Depth,
      MaxDepth, FirstSix;
    OneArgument(arg, here, syms, st, n);
    TriangleCalled(p, arg, here, st, n, syms);
    r := CallFollows(x, p, pc, "triangle", [arg], here, st, 6 + 4 * n, n + 1, m, lo, syms);
  }
}
