/** Argument marshalling for `call` and `sys:call` is a parallel assignment. */
module MarshalProofs {
  import opened Wrappers
  import opened Words
  import opened Memory
  import opened Regs
  import opened Isa
  import opened Assembly
  import opened Ast
  import opened Codegen
  import opened Semantics
  import opened ExprProofs
  import opened StmtProofs

  /** r12 is read only while no compound argument has been evaluated yet. */
  predicate R12Early(args: seq<Expr>) {
    && (forall i | 0 <= i < |args| :: R12Intact(args[i]))
    && (forall i, j | 0 <= i < j < |args| :: Compound(args[i]) ==> !ReadsR12(args[j]))
  }

  function MaxDepth(args: seq<Expr>): nat {
    if args == [] then 0
    else
      var d := MaxDepth(args[..|args| - 1]);
      if Depth(args[|args| - 1]) > d then Depth(args[|args| - 1]) else d
  }

  ghost predicate AllReadable(args: seq<Expr>, c: Ctx, m: Machine, syms: Syms) {
    forall i | 0 <= i < |args| :: Readable(args[i], c, m, m.regs[RSP], syms)
  }

  predicate AnyCompound(args: seq<Expr>) {
    exists i | 0 <= i < |args| :: Compound(args[i])
  }

  /** r12 after the arguments have been evaluated one after the other. */
  function R12Thread(args: seq<Expr>, x: Word, c: Ctx, m: Machine, syms: Syms): Word {
    if args == [] then x
    else R12After(args[|args| - 1], R12Thread(args[..|args| - 1], x, c, m, syms), c, m, syms)
  }

  /** The value seen for argument i. */
  function SeenArg(args: seq<Expr>, i: nat, c: Ctx, m: Machine, syms: Syms): Word
    requires i < |args|
  {
    Seen(args[i], R12Thread(args[..i], m.regs[R12], c, m, syms), c, m, syms)
  }

  /** After pushing: argument i sits i + 1 slots below the old rsp, holding the value seen for it. */
  ghost predicate Stacked(args: seq<Expr>, c: Ctx, via: Reg, m: Machine, m': Machine, syms: Syms) {
    && m'.regs[RSP] == m.regs[RSP] - 8 * |args|
    && AgreeUser(m, m', m.regs[RSP])
    && (via != R15 ==> m'.regs[R15] == m.regs[R15])
    && m'.regs[R12] == R12Thread(args, m.regs[R12], c, m, syms)
    && (forall i | 0 <= i < |args| :: Load64(m'.mem, m.regs[RSP] - 8 * (i + 1)) == SeenArg(args, i, c, m, syms))
  }

  lemma {:induction false} PushArgsSees(args: seq<Expr>, via: Reg, c: Ctx, m: Machine, syms: Syms) returns (m': Machine)
    requires WellFormed(c) && PushArgs(args, via, c).Some? && (via == R11 || via == R15)
    requires AllReadable(args, c, m, syms) && 8 * (|args| + MaxDepth(args)) <= m.regs[RSP]
    ensures Run(PushArgs(args, via, c).value, m, syms) == Some(m')
    ensures Stacked(args, c, via, m, m', syms)
    decreases |args|
  {
    if args == [] {
      m' := m;
    } else {
      hide Stacked, Readable, WellFormed, ExprCode, Depth;
      var n := |args| - 1;
      var m1 := PushArgsSees(args[..n], via, c, m, syms);
      m' := PushLast(args, via, c, m, m1, syms);
      RunConcat(PushArgs(args[..n], via, c).value, ExprCode(args[n], via, c).value + [Ins(Push(via))], m, syms);
    }
  }

  /** Evaluate one operand and push what it sees. */
  lemma EvalPush(e: Expr, via: Reg, c: Ctx, m: Machine, m1: Machine, syms: Syms) returns (m': Machine)
    requires WellFormed(c) && (via == R11 || via == R15) && ExprCode(e, via, c).Some?
    requires Readable(e, c, m, m.regs[RSP], syms) && AgreeUser(m, m1, m.regs[RSP])
    requires m1.regs[RSP] <= m.regs[RSP] && 8 * Depth(e) <= m1.regs[RSP] && 8 <= m1.regs[RSP]
    ensures Run(ExprCode(e, via, c).value + [Ins(Push(via))], m1, syms) == Some(m')
    ensures m'.regs[RSP] == m1.regs[RSP] - 8 && Load64(m'.mem, m'.regs[RSP]) == Seen(e, m1.regs[R12], c, m, syms)
    ensures SameFrom(m1.mem, m'.mem, m1.regs[RSP]) && AgreeUser(m, m', m.regs[RSP])
    ensures via != R15 ==> m'.regs[R15] == m1.regs[R15]
    ensures m'.regs[R12] == R12After(e, m1.regs[R12], c, m, syms)
  {
    hide Run, Load64, Store64, Readable, Seen, SeenFlags, R12After, ExprCode, WellFormed, Depth;
    SeenSame(e, m1.regs[R12], c, m, m1, m.regs[RSP], syms);
    WeakenReadable(e, c, m1, m.regs[RSP], m1.regs[RSP], syms);
    EvalSees(e, via, c, m1, syms);
    var m2 := Run(ExprCode(e, via, c).value, m1, syms).value;
    m' := PushValue(m2, m2.regs[via]);
    Run1(Ins(Push(via)), m2, syms);
    RunConcat(ExprCode(e, via, c).value, [Ins(Push(via))], m1, syms);
    LoadStore64(m2.mem, m1.regs[RSP] - 8, m2.regs[via]);
  }

  /** One more argument: it lands below the ones already stacked, which keep their values. */
  lemma PushLast(args: seq<Expr>, via: Reg, c: Ctx, m: Machine, m1: Machine, syms: Syms) returns (m': Machine)
    requires args != [] && WellFormed(c) && (via == R11 || via == R15)
    requires ExprCode(args[|args| - 1], via, c).Some?
    requires AllReadable(args, c, m, syms) && 8 * (|args| + MaxDepth(args)) <= m.regs[RSP]
    requires Stacked(args[..|args| - 1], c, via, m, m1, syms)
    ensures Run(ExprCode(args[|args| - 1], via, c).value + [Ins(Push(via))], m1, syms) == Some(m')
    ensures Stacked(args, c, via, m, m', syms)
  {
    hide Run, Load64, Seen, R12After, Readable, ExprCode, Depth, WellFormed;
    var n, e := |args| - 1, args[|args| - 1];
    m' := EvalPush(e, via, c, m, m1, syms);
    forall i | 0 <= i < |args|
      ensures Load64(m'.mem, m.regs[RSP] - 8 * (i + 1)) == SeenArg(args, i, c, m, syms)
    {
      if i < n {
        assert args[..n][i] == args[i] && args[..n][..i] == args[..i];
        assert Load64(m1.mem, m.regs[RSP] - 8 * (i + 1)) == SeenArg(args[..n], i, c, m, syms);
        Load64Same(m1.mem, m'.mem, m.regs[RSP] - 8 * (i + 1));
      }
    }
  }

  predicate Distinct(rs: seq<Reg>) {
    forall i, j | 0 <= i < j < |rs| :: rs[i] != rs[j]
  }

  /** Popping n values into distinct registers, last one first. */
  lemma {:induction false} PopArgsCorrect(n: nat, targets: seq<Reg>, base: int, m: Machine,
                                          syms: Syms) returns (m': Machine)
    requires n <= |targets| && Distinct(targets) && RSP !in targets
    requires 0 <= base - 8 * n && base < TWO64 && m.regs[RSP] == base - 8 * n
    ensures Run(PopArgs(n, targets), m, syms) == Some(m')
    ensures m'.mem == m.mem && m'.regs[RSP] == base && m'.flags == m.flags
    ensures forall i | 0 <= i < n :: m'.regs[targets[i]] == Load64(m.mem, base - 8 * (i + 1))
    ensures forall r: Reg | r != RSP && r !in targets[..n] :: m'.regs[r] == m.regs[r]
    decreases n
  {
    hide Load64;
    if n == 0 {
      m' := m;
    } else {
      var m1 := Exec(Pop(targets[n - 1]), m).value;
      m' := PopArgsCorrect(n - 1, targets, base, m1, syms);
      RunCons(Ins(Pop(targets[n - 1])), PopArgs(n - 1, targets), m, syms);
      assert targets[n - 1] !in targets[..n - 1];
      assert targets[..n] == targets[..n - 1] + [targets[n - 1]];
    }
  }

  /** Each target register receives what its operand sees, the operands evaluated in order; rsp is balanced
      and only scratch registers change besides. */
  lemma MarshalSees(args: seq<Expr>, via: Reg, targets: seq<Reg>, c: Ctx, m: Machine, syms: Syms) returns (m': Machine)
    requires |targets| == 6 && Distinct(targets) && RSP !in targets && (via == R11 || via == R15)
    requires WellFormed(c) && Marshal(args, via, targets, c).Some? && AllReadable(FirstSix(args), c, m, syms)
    requires 8 * (|FirstSix(args)| + MaxDepth(FirstSix(args))) <= m.regs[RSP]
    ensures Run(Marshal(args, via, targets, c).value, m, syms) == Some(m')
    ensures forall i | 0 <= i < |FirstSix(args)| :: m'.regs[targets[i]] == SeenArg(FirstSix(args), i, c, m, syms)
    ensures m'.regs[RSP] == m.regs[RSP] && SameFrom(m.mem, m'.mem, m.regs[RSP])
    ensures forall r: Reg | r !in targets[..|FirstSix(args)|] && r != R11 && r != R12 && r != via ::
            m'.regs[r] == m.regs[r]
    ensures R12 !in targets ==> m'.regs[R12] == R12Thread(FirstSix(args), m.regs[R12], c, m, syms)
  {
    hide Run, Load64, SeenArg, R12Thread, Readable, WellFormed;
    var six := FirstSix(args);
    var m1 := PushArgsSees(six, via, c, m, syms);
    m' := PopArgsCorrect(|six|, targets, m.regs[RSP], m1, syms);
    RunConcat(PushArgs(six, via, c).value, PopArgs(|six|, targets), m, syms);
  }

  /** Arguments that read r12 before any compound argument has replaced it see their values. */
  lemma {:induction false} ThreadIs(args: seq<Expr>, k: nat, c: Ctx, m: Machine, syms: Syms)
    requires R12Early(args) && WellFormed(c) && k <= |args|
    ensures !AnyCompound(args[..k]) ==> R12Thread(args[..k], m.regs[R12], c, m, syms) == m.regs[R12]
    decreases k
  {
    if k > 0 {
      assert args[..k][..k - 1] == args[..k - 1] && args[..k][k - 1] == args[k - 1];
      ThreadIs(args, k - 1, c, m, syms);
      if !AnyCompound(args[..k]) {
        assert !Compound(args[..k][k - 1]);
        assert forall i | 0 <= i < k - 1 :: args[..k - 1][i] == args[..k][i];
      }
    }
  }

  lemma SeenArgIs(args: seq<Expr>, i: nat, c: Ctx, m: Machine, syms: Syms)
    requires R12Early(args) && WellFormed(c) && i < |args|
    ensures SeenArg(args, i, c, m, syms) == Wrap(Value(args[i], c, m, syms))
  {
    hide Seen, Value, R12Intact, R12Thread;
    ThreadIs(args, i, c, m, syms);
    if ReadsR12(args[i]) {
      assert forall j | 0 <= j < i :: args[..i][j] == args[j];
      assert !AnyCompound(args[..i]);
    }
    SeenIsValue(args[i], R12Thread(args[..i], m.regs[R12], c, m, syms), c, m, syms);
  }

  /** So it is the value each operand had before the statement, however the operands permute the argument
      registers, when r12 is read early enough. */
  lemma MarshalCorrect(args: seq<Expr>, via: Reg, targets: seq<Reg>, c: Ctx, m: Machine,
                       syms: Syms) returns (m': Machine)
    requires |targets| == 6 && Distinct(targets) && RSP !in targets && (via == R11 || via == R15)
    requires WellFormed(c) && Marshal(args, via, targets, c).Some?
    requires R12Early(FirstSix(args)) && AllReadable(FirstSix(args), c, m, syms)
    requires 8 * (|FirstSix(args)| + MaxDepth(FirstSix(args))) <= m.regs[RSP]
    ensures Run(Marshal(args, via, targets, c).value, m, syms) == Some(m')
    ensures forall i | 0 <= i < |FirstSix(args)| :: m'.regs[targets[i]] == Wrap(Value(args[i], c, m, syms))
    ensures m'.regs[RSP] == m.regs[RSP] && SameFrom(m.mem, m'.mem, m.regs[RSP])
    ensures forall r: Reg | r !in targets[..|FirstSix(args)|] && r != R11 && r != R12 && r != via ::
            m'.regs[r] == m.regs[r]
    ensures !AnyCompound(FirstSix(args)) && R12 !in targets ==> m'.regs[R12] == m.regs[R12]
  {
    hide Run, SeenArg, R12Thread, Readable, Value, R12Intact, WellFormed, Marshal;
    var six := FirstSix(args);
    m' := MarshalSees(args, via, targets, c, m, syms);
    forall i | 0 <= i < |six|
      ensures m'.regs[targets[i]] == Wrap(Value(args[i], c, m, syms))
    {
      assert six[i] == args[i];
      SeenArgIs(six, i, c, m, syms);
    }
    ThreadIs(six, |six|, c, m, syms);
    assert six[..|six|] == six;
  }

  /** The registers `sys:call` and `call` fill are distinct, so both are instances of the above. */
  lemma TargetsDistinct()
    ensures Distinct(SYSCALL_ARGS) && RSP !in SYSCALL_ARGS && R12 !in SYSCALL_ARGS && RCX !in SYSCALL_ARGS
    ensures Distinct(CALL_ARGS) && RSP !in CALL_ARGS && R12 !in CALL_ARGS && |CALL_ARGS| == |SYSCALL_ARGS| == 6
  {
  }

  /** The kernel returns with rax, rcx and r11 changed; it may write memory, but not the two saved words. */
  ghost predicate KernelReturn(m: Machine, m': Machine) {
    && (forall r: Reg | r != RAX && r != RCX && r != R11 :: m'.regs[r] == m.regs[r])
    && SameIn(m.mem, m'.mem, m.regs[RSP], m.regs[RSP] as int + 16)
  }

  /** The part of `sys:call` up to the `syscall` instruction, and the part after it. */
  function BeforeKernel(number: int, args: seq<Expr>, c: Ctx): Option<seq<Item>> {
    Opt(Marshal(args, SCRATCH, SYSCALL_ARGS, c), Some(Imm(RAX, number) + [Ins(Push(RCX)), Ins(Push(R11))]))
  }

  const AFTER_KERNEL: seq<Item> := [Ins(Pop(R11)), Ins(Pop(RCX))]

  lemma SyscallSplits(num: SysNum, args: seq<Expr>, c: Ctx)
    requires SyscallCode(num, args, c).Some?
    ensures SysNumber(num).Some? && BeforeKernel(SysNumber(num).value, args, c).Some?
    ensures SyscallCode(num, args, c).value == BeforeKernel(SysNumber(num).value, args, c).value + [Ins(Syscall)] +
            AFTER_KERNEL
  {
    var number := SysNumber(num).value;
    var a := Marshal(args, SCRATCH, SYSCALL_ARGS, c).value;
    var b := Imm(RAX, number) + [Ins(Push(RCX)), Ins(Push(R11))];
    assert Imm(RAX, number) + [Ins(Push(RCX)), Ins(Push(R11)), Ins(Syscall), Ins(Pop(R11)), Ins(Pop(RCX))] ==
           b + [Ins(Syscall)] + AFTER_KERNEL;
    assert a + (b + [Ins(Syscall)] + AFTER_KERNEL) == (a + b) + [Ins(Syscall)] + AFTER_KERNEL;
  }

  /** At the `syscall` instruction the kernel sees the number and what the operands are seen as. */
  lemma KernelEntry(number: int, args: seq<Expr>, c: Ctx, m: Machine, syms: Syms) returns (entry: Machine)
    requires WellFormed(c) && BeforeKernel(number, args, c).Some?
    requires AllReadable(FirstSix(args), c, m, syms)
    requires 8 * (|FirstSix(args)| + MaxDepth(FirstSix(args))) + 16 <= m.regs[RSP]
    ensures Run(BeforeKernel(number, args, c).value, m, syms) == Some(entry)
    ensures entry.regs[RAX] == Wrap(number) && entry.regs[RSP] == m.regs[RSP] - 16
    ensures forall i | 0 <= i < |FirstSix(args)| ::
            entry.regs[SYSCALL_ARGS[i]] == SeenArg(FirstSix(args), i, c, m, syms)
    ensures entry.regs[RCX] == m.regs[RCX] && SameFrom(m.mem, entry.mem, m.regs[RSP])
    ensures Load64(entry.mem, m.regs[RSP] - 8) == m.regs[RCX]
    ensures Load64(entry.mem, m.regs[RSP] - 16) == entry.regs[R11]
  {
    hide Run, Load64, Marshal, Readable, SeenArg, R12Thread;
    TargetsDistinct();
    var m1 := MarshalSees(args, SCRATCH, SYSCALL_ARGS, c, m, syms);
    ImmCorrect(RAX, number, m1, syms);
    var m2 := m1.Set(RAX, Wrap(number));
    entry := PushTwo(RCX, R11, m2, syms);
    var load, push := Imm(RAX, number), [Ins(Push(RCX)), Ins(Push(R11))];
    RunConcat(load, push, m1, syms);
    RunConcat(Marshal(args, SCRATCH, SYSCALL_ARGS, c).value, load + push, m, syms);
  }

  /** The kernel is entered with the number and what the operands are seen as, their values when they read r12 in
      time. After `sys:call`, whatever the kernel did to rcx and r11, both hold their values from before the
      instruction, rsp is balanced and rax is the kernel's result. */
  lemma SyscallPreserves(num: SysNum, args: seq<Expr>, c: Ctx, m: Machine, back: Machine, syms: Syms)
    returns (entry: Machine, done: Machine)
    requires WellFormed(c) && SyscallCode(num, args, c).Some?
    requires AllReadable(FirstSix(args), c, m, syms)
    requires 8 * (|FirstSix(args)| + MaxDepth(FirstSix(args))) + 16 <= m.regs[RSP]
    ensures SysNumber(num).Some? && BeforeKernel(SysNumber(num).value, args, c).Some?
    ensures Run(BeforeKernel(SysNumber(num).value, args, c).value, m, syms) == Some(entry)
    ensures entry.regs[RAX] == Wrap(SysNumber(num).value)
    ensures forall i | 0 <= i < |FirstSix(args)| ::
            entry.regs[SYSCALL_ARGS[i]] == SeenArg(FirstSix(args), i, c, m, syms)
    ensures R12Early(FirstSix(args)) ==>
              forall i | 0 <= i < |FirstSix(args)| :: entry.regs[SYSCALL_ARGS[i]] == Wrap(Value(args[i], c, m, syms))
    ensures KernelReturn(entry, back) ==>
              && Run(AFTER_KERNEL, back, syms) == Some(done)
              && done.regs[RCX] == m.regs[RCX] && done.regs[R11] == entry.regs[R11]
              && done.regs[RAX] == back.regs[RAX] && done.regs[RSP] == m.regs[RSP]
              && done.mem == back.mem && done.flags == back.flags
  {
    hide Run, Load64, Marshal, BeforeKernel, Readable, Value, SeenArg, R12Early;
    SyscallSplits(num, args, c);
    entry := KernelEntry(SysNumber(num).value, args, c, m, syms);
    done := entry;
    if R12Early(FirstSix(args)) {
      forall i | 0 <= i < |FirstSix(args)|
        ensures entry.regs[SYSCALL_ARGS[i]] == Wrap(Value(args[i], c, m, syms))
      {
        SeenArgIs(FirstSix(args), i, c, m, syms);
      }
    }
    if KernelReturn(entry, back) {
      PopTwo(R11, RCX, back, syms);
      done := Run(AFTER_KERNEL, back, syms).value;
      Load64Same(entry.mem, back.mem, m.regs[RSP] - 8);
      Load64Same(entry.mem, back.mem, m.regs[RSP] - 16);
    }
  }
}
