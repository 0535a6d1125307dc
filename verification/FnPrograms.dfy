/** From a source program with functions to its bytes: top-level statements and all the calls they make. */
module FnPrograms {
  import opened Wrappers
  import opened Words
  import opened Memory
  import opened Regs
  import opened Isa
  import opened Assembly
  import opened Ast
  import opened Codegen
  import opened Semantics
  import opened ExprProofs
  import opened Simulation
  import opened Flow
  import opened Calls
  import opened FnLanguage
  import opened FnStatements
  import opened FnSimulation
  import opened Programs
  import LayoutProofs
  import Images

  /** n top-level statements, calls included: the items reach the interpreter's place and state, and nothing from rsp
      upward has changed. */
  lemma {:induction false} MainFollows(x: Listing, p: Fns, b: nat, prog: seq<Stmt>, q: Place, n: nat, fuel: nat,
                                       depth: nat, m: Machine, syms: Syms)
    returns (m': Machine)
    requires Ready(x, p) && WellFormed(p.c) && BodyStands(x, b, prog, p.c, false) && BodyFits(prog, p.work)
    requires RunMain(p.defs, p.c, prog, syms, q, n, fuel, depth).Some? && q.i <= |prog|
    requires Slots(p.c, m, m.regs[RSP]) && FrameMatch(p.c, q.st, m) && Need(p, depth) <= m.regs[RSP]
    ensures var r := RunMain(p.defs, p.c, prog, syms, q, n, fuel, depth).value;
            && r.i <= |prog| && FrameMatch(p.c, r.st, m') && SameFrame(m, m', m.regs[RSP])
            && Reaches(x, Spot(StmtAt(b, prog, p.c, false, q.i), m), Spot(StmtAt(b, prog, p.c, false, r.i), m'), syms)
    decreases n
  {
    hide Ready, WellFormed, BodyStands, BodyFits, Advance, Slots, FrameMatch, StmtAt, Reaches;
    if n == 0 {
      m' := m;
      ReachSelf(x, Spot(StmtAt(b, prog, p.c, false, q.i), m), syms);
    } else {
      var r := Advance(p.defs, p.c, prog, p.c, syms, q.i, q.st, fuel, depth).value;
      var m1 := StmtFollows(x, p, b, prog, p.c, false, q.i, q.st, fuel, depth, m, m.regs[RSP], syms);
      SlotsSame(p.c, m, m1, m.regs[RSP]);
      m' := MainFollows(x, p, b, prog, r, n - 1, fuel, depth, m1, syms);
      var end := RunMain(p.defs, p.c, prog, syms, r, n - 1, fuel, depth).value;
      ReachTrans(x, Spot(StmtAt(b, prog, p.c, false, q.i), m), Spot(StmtAt(b, prog, p.c, false, r.i), m1),
                 Spot(StmtAt(b, prog, p.c, false, end.i), m'), syms);
    }
  }

  // ---- where the functions stand ----

  /** First items of the functions whose code begins at b. */
  function Places(fns: seq<FnDef>, c: Ctx, b: nat): (at: seq<nat>)
    ensures |at| == |fns|
  {
    if fns == [] then []
    else
      var rest := fns[..|fns| - 1];
      Places(rest, c, b) + [match FnsCode(rest, c) case None => b case Some(code) => b + |code|]
  }

  lemma {:induction false} PlacesStand(x: Listing, fns: seq<FnDef>, c: Ctx, b: nat)
    requires FnsCode(fns, c).Some? && Stands(x, b, FnsCode(fns, c).value)
    ensures forall k | 0 <= k < |fns| ::
              FnCode(fns[k], c).Some? && Stands(x, Places(fns, c, b)[k], FnCode(fns[k], c).value)
    decreases |fns|
  {
    hide FnCode, Stands;
    if fns != [] {
      var n := |fns| - 1;
      StandsPart(x, b, FnsCode(fns[..n], c).value, FnCode(fns[n], c).value);
      PlacesStand(x, fns[..n], c, b);
      forall k | 0 <= k < |fns|
        ensures FnCode(fns[k], c).Some? && Stands(x, Places(fns, c, b)[k], FnCode(fns[k], c).value)
      {
        if k < n {
          assert fns[..n][k] == fns[k];
          assert Places(fns, c, b)[k] == Places(fns[..n], c, b)[k];
        }
      }
    }
  }

  /** The functions of a generated program: behind the top-level code and the exit. */
  function Defs(prog: seq<Top>, o: Options, c: Ctx, frame: nat, work: nat): Fns {
    var b := match BodyCode(TopStmts(prog), c, false) case None => 0 case Some(code) => |code| + |Tail(prog, o)|;
    Fns(Functions(prog), Places(Functions(prog), c, b), c, frame, work)
  }

  /** Frames and operands fit into the given sizes, and every local has a size. */
  predicate Fits(prog: seq<Top>, frame: nat, work: nat) {
    && BodyFits(TopStmts(prog), work)
    && forall k | 0 <= k < |Functions(prog)| :: FnFits(Functions(prog)[k], Fns([], [], NO_NAMES, frame, work))
  }

  lemma ProgramStands(x: Listing, prog: seq<Top>, o: Options, c: Ctx)
    requires ProgramCode(prog, o, c) == Some(x.items)
    ensures BodyStands(x, 0, TopStmts(prog), c, false) && FnsCode(Functions(prog), c).Some?
    ensures Stands(x, |BodyCode(TopStmts(prog), c, false).value| + |Tail(prog, o)|, FnsCode(Functions(prog), c).value)
  {
    hide BodyCode, FnsCode, Tail, Stands;
    var body, tail, fns := BodyCode(TopStmts(prog), c, false).value, Tail(prog, o), FnsCode(Functions(prog), c).value;
    assert Stands(x, 0, body + tail + fns) by { WholeStands(x); }
    StandsPart(x, 0, body + tail, fns);
    StandsPart(x, 0, body, tail);
  }

  lemma WholeStands(x: Listing)
    ensures Stands(x, 0, x.items)
  {
    assert x.items[0..|x.items|] == x.items;
  }

  /** A generated program is one the simulation speaks of. */
  lemma GeneratedReady(prog: seq<Top>, o: Options, out: Output, frame: nat, work: nat, base: Word)
    requires Generate(prog, o) == Some(out) && Fits(prog, frame, work) && base as int + |out.code| < TWO64
    ensures var g := LayoutProofs.ImageOf(out, o);
            && Built(g) && AllLegal(g.items) && out.names.args == map[] && out.names.locals == map[]
            && Ready(ListingOf(g, base), Defs(prog, o, out.names, frame, work))
            && BodyStands(ListingOf(g, base), 0, TopStmts(prog), out.names, false)
  {
    hide Built, AllLegal, BodyCode, FnsCode, FnCode, Collect, FieldsOk, Images.WxPad, LinkAll, EmitAll, Linked,
      FinalOffsets, Stands, BodyStands, Unique, Apart, Tail, Places, ListingOf, FnFits, BodyFits, Structs;
    var g := LayoutProofs.ImageOf(out, o);
    LayoutProofs.GeneratedIsBuilt(prog, o);
    BuiltLegal(g);
    var x := ListingOf(g, base);
    ListingItems(g, base);
    BuiltUnique(g);
    BuiltApart(g, base);
    assert ProgramCode(prog, o, out.names) == Some(out.items);
    ProgramStands(x, prog, o, out.names);
    var p := Defs(prog, o, out.names, frame, work);
    assert Loaded(x, p) by { DefsLoaded(x, prog, o, out.names, frame, work); }
  }

  lemma DefsLoaded(x: Listing, prog: seq<Top>, o: Options, c: Ctx, frame: nat, work: nat)
    requires BodyCode(TopStmts(prog), c, false).Some? && FnsCode(Functions(prog), c).Some? && Fits(prog, frame, work)
    requires Stands(x, |BodyCode(TopStmts(prog), c, false).value| + |Tail(prog, o)|, FnsCode(Functions(prog), c).value)
    ensures Loaded(x, Defs(prog, o, c, frame, work))
  {
    hide BodyCode, FnsCode, FnCode, Stands, Tail, Places, BodyFits, Functions, TopStmts;
    PlacesStand(x, Functions(prog), c, |BodyCode(TopStmts(prog), c, false).value| + |Tail(prog, o)|);
  }

  /** Between top-level statements of a generated program: the next byte is the first of statement i. */
  ghost predicate AtStatement(out: Output, o: Options, prog: seq<Stmt>, i: nat, pc: int) {
    && i <= |prog| && StmtAt(0, prog, out.names, false, i) <= |out.items| && AllLegal(out.items)
    && pc == Off(LayoutProofs.ImageOf(out, o), StmtAt(0, prog, out.names, false, i))
  }

  lemma AtStatementIs(out: Output, o: Options, prog: seq<Stmt>, i: nat)
    requires i <= |prog| && StmtAt(0, prog, out.names, false, i) <= |out.items| && AllLegal(out.items)
    ensures AtStatement(out, o, prog, i, Off(LayoutProofs.ImageOf(out, o), StmtAt(0, prog, out.names, false, i)))
  {
    hide AllLegal, StmtAt, Off;
  }

  lemma FirstStatement(prog: seq<Stmt>, c: Ctx, g: Image)
    requires AllLegal(g.items)
    ensures StmtAt(0, prog, c, false, 0) == 0 && Off(g, 0) == 0
  {
    hide AllLegal;
    assert prog[..0] == [] && g.items[..0] == [];
  }

  lemma NoLocals(c: Ctx, st: FnState, m: Machine)
    requires c.args == map[] && c.locals == map[] && KnownMatch(st, m) && st.locals == map[]
    ensures WellFormed(c) && Slots(c, m, m.regs[RSP]) && FrameMatch(c, st, m)
  {
    hide KnownMatch;
  }

  /** From source to run, with functions: from the first byte of a generated program's code, fetch, decode and execute
      follow n top-level statements of the interpreter, each with all the calls it makes, to the first byte of the
      statement the interpreter is at. Known registers and flags agree, and memory from rsp upward is unchanged. */
  lemma GeneratedCallsRun(prog: seq<Top>, o: Options, out: Output, syms: Syms, p: Fns, st: FnState, q: Place, n: nat,
                          fuel: nat, depth: nat, m: Machine)
    returns (cpu: Cpu, k: nat)
    requires Generate(prog, o) == Some(out) && CodeBase(o) + |out.code| < TWO64
    requires Fits(prog, p.frame, p.work) && p == Defs(prog, o, out.names, p.frame, p.work)
    requires Addresses(LayoutProofs.ImageOf(out, o), CodeBase(o), syms)
    requires KnownMatch(st, m) && st.locals == map[] && Need(p, depth) <= m.regs[RSP]
    requires RunMain(Functions(prog), out.names, TopStmts(prog), syms, At(0, st), n, fuel, depth) == Some(q)
    ensures CpuRun(out.code, CodeBase(o), Cpu(m, 0), k) == Some(cpu)
    ensures AtStatement(out, o, TopStmts(prog), q.i, cpu.pc) && KnownMatch(q.st, cpu.m)
    ensures SameFrame(m, cpu.m, m.regs[RSP])
  {
    hide Generate, CodeBase, Built, AllLegal, Addresses, RunMain, KnownMatch, Ready, BodyStands, BodyFits, FnFits,
      Reaches, CpuRun, Off, ListingOf, BodyCode, Need, Places, Slots, WellFormed, AtStatement, Functions, TopStmts,
        StmtAt;
    var g, base := LayoutProofs.ImageOf(out, o), CodeBase(o);
    GeneratedReady(prog, o, out, p.frame, p.work, base);
    NoLocals(out.names, st, m);
    var m' := MainFollows(ListingOf(g, base), p, 0, TopStmts(prog), At(0, st), n, fuel, depth, m, syms);
    FirstStatement(TopStmts(prog), out.names, g);
    var at := StmtAt(0, TopStmts(prog), out.names, false, q.i);
    k := ReachBytes(g, base, Spot(0, m), Spot(at, m'), syms);
    cpu := Cpu(m', Off(g, at));
    AtStatementIs(out, o, TopStmts(prog), q.i);
  }
}
