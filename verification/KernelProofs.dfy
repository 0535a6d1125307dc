/** From a source program to a booted kernel: the boot sequence hands over to the bytes the simulation runs. */
module KernelProofs {
  import opened Wrappers
  import opened Words
  import opened Memory
  import opened Regs
  import opened Isa
  import opened Assembly
  import opened Ast
  import opened Codegen
  import opened Simulation
  import opened Semantics
  import opened SourceLanguage
  import opened ProgramSimulation
  import opened Programs
  import FnLanguage
  import FnStatements
  import FnSimulation
  import FnPrograms
  import LayoutProofs
  import Boot
  import BootProofs
  import Images

  /** The memory of a booted kernel. */
  function KernelRam(out: Output): BootProofs.Ram {
    BootProofs.Loaded(out.code, out.data, Boot.LOAD_ADDR)
  }

  lemma KernelBase(o: Options)
    requires o.baremetal
    ensures CodeBase(o) == Boot.CodeStart(Boot.LOAD_ADDR) + Boot.Plan(Boot.LOAD_ADDR).user && CodeBase(o) < 0x4000_0000
  {
    hide Boot.Plan;
    Boot.PlanOrdered(Boot.LOAD_ADDR);
  }

  /** n statements of the interpreter are the corresponding instructions of the code at `at`. */
  ghost predicate Follows(prog: seq<Top>, o: Options, out: Output, at: Word, m: Machine, n: nat)
    requires SimpleProgram(TopStmts(prog), IntConsts(out.names))
  {
    var consts, start := IntConsts(out.names), Src(0, m.regs, m.flags);
    RunAgrees(TopStmts(prog), out.names, LayoutProofs.ImageOf(out, o), m, SrcRun(TopStmts(prog), consts, start, n),
              CpuRun(out.code, at, Cpu(m, 0), RunSteps(TopStmts(prog), out.names, start, n)))
  }

  /** Boot ended in 64-bit mode at the code, with the data behind it. */
  ghost predicate Booted(out: Output, t: BootProofs.BootCpu) {
    && t.long && t.rsp == 0x90000
    && BootProofs.BytesOf(KernelRam(out), t.pc, |out.code|) == out.code
    && BootProofs.BytesOf(KernelRam(out), t.pc + |out.code|, |out.data|) == out.data
  }
  const NO_INFO: Images.DebugInfo := Images.DebugInfo(0, [])

  /** The simulation of the generated program, from the address its kernel is entered at. */
  lemma KernelFollows(prog: seq<Top>, o: Options, out: Output, m: Machine, n: nat)
    requires Generate(prog, o) == Some(out) && out.code != [] && o.baremetal && m.regs[RSP] == 0x90000
    requires SimpleProgram(TopStmts(prog), IntConsts(out.names))
    ensures CodeBase(o) < TWO64 && Follows(prog, o, out, CodeBase(o), m, n)
  {
    hide Generate, SrcRun, CpuRun, RunSteps, RunAgrees, CodeBase, SimpleProgram, FileFor;
    KernelBase(o);
    LayoutProofs.GeneratedProgramRuns(prog, o, out, NO_INFO, m, n);
  }

  /** A generated kernel boots: from the Multiboot hand-off, the processor reaches in 64-bit mode the address the
      program was linked for, where its code bytes stand with the data behind them and rsp at 0x90000; and from
      there, on any machine with that rsp, n statements of the label-level interpreter are the corresponding
      instructions of those bytes. */
  lemma KernelRuns(prog: seq<Top>, o: Options, out: Output, s: BootProofs.BootCpu, m: Machine,
                   n: nat) returns (t: BootProofs.BootCpu)
    requires Generate(prog, o) == Some(out) && out.code != [] && o.baremetal
    requires SimpleProgram(TopStmts(prog), IntConsts(out.names))
    requires BootProofs.HandedOff(s, Boot.CodeStart(Boot.LOAD_ADDR) + Boot.MULTIBOOT_SIZE)
    ensures BootProofs.BootRun(KernelRam(out), s, BootProofs.BOOT_STEPS) == Some(t) && Booted(out, t)
    ensures t.pc == CodeBase(o) < TWO64 && (m.regs[RSP] == t.rsp ==> Follows(prog, o, out, t.pc, m, n))
  {
    hide Generate, Follows, CodeBase, Boot.Plan, BootProofs.BootRun, BootProofs.BytesOf, BootProofs.Loaded,
      BootProofs.HandedOff,
         SimpleProgram, BootProofs.Translate, BootProofs.LongActive;
    KernelBase(o);
    t := BootProofs.BootReachesPayload(out.code, out.data, Boot.LOAD_ADDR, s);
    if m.regs[RSP] == t.rsp {
      KernelFollows(prog, o, out, m, n);
    }
  }

  /** And with functions: from the address the boot sequence reaches, the bytes follow n top-level statements of the
      interpreter for functions with all the calls they make. */
  lemma KernelCallsRun(prog: seq<Top>, o: Options, out: Output, s: BootProofs.BootCpu, syms: Syms, p: FnSimulation.Fns,
                       st: FnLanguage.FnState, q: FnLanguage.Place, n: nat, fuel: nat, depth: nat, m: Machine)
    returns (t: BootProofs.BootCpu, cpu: Cpu, k: nat)
    requires Generate(prog, o) == Some(out) && out.code != [] && o.baremetal && CodeBase(o) + |out.code| < TWO64
    requires BootProofs.HandedOff(s, Boot.CodeStart(Boot.LOAD_ADDR) + Boot.MULTIBOOT_SIZE)
    requires FnPrograms.Fits(prog, p.frame, p.work) && p == FnPrograms.Defs(prog, o, out.names, p.frame, p.work)
    requires Addresses(LayoutProofs.ImageOf(out, o), CodeBase(o), syms) && m.regs[RSP] == 0x90000
    requires FnStatements.KnownMatch(st, m) && st.locals == map[] && FnSimulation.Need(p, depth) <= 0x90000
    requires var start := FnLanguage.At(0, st);
             FnLanguage.RunMain(Functions(prog), out.names, TopStmts(prog), syms, start, n, fuel, depth) == Some(q)
    ensures BootProofs.BootRun(KernelRam(out), s, BootProofs.BOOT_STEPS) == Some(t) && Booted(out, t)
    ensures t.pc == CodeBase(o) < TWO64 && CpuRun(out.code, t.pc, Cpu(m, 0), k) == Some(cpu)
    ensures FnPrograms.AtStatement(out, o, TopStmts(prog), q.i, cpu.pc) && FnStatements.KnownMatch(q.st, cpu.m)
  {
    hide Generate, CodeBase, Boot.Plan, BootProofs.BootRun, BootProofs.BytesOf, BootProofs.Loaded, BootProofs.HandedOff,
      BootProofs.Translate, BootProofs.LongActive, Addresses, FnStatements.KnownMatch, FnSimulation.Need,
      FnPrograms.Fits, FnPrograms.Defs, FnPrograms.AtStatement, FnLanguage.RunMain, CpuRun;
    KernelBase(o);
    t := BootProofs.BootReachesPayload(out.code, out.data, Boot.LOAD_ADDR, s);
    cpu, k := FnPrograms.GeneratedCallsRun(prog, o, out, syms, p, st, q, n, fuel, depth, m);
  }
}
