/** The register map of ACLM/regs.py: hardware numbers, user-visible names, reserved scratch. */
module Regs {
  import opened Wrappers

  type Reg = r: int | 0 <= r < 16

  const RAX: Reg := 0
  const RCX: Reg := 1
  const RDX: Reg := 2
  const RBX: Reg := 3
  const RSP: Reg := 4
  const RBP: Reg := 5
  const RSI: Reg := 6
  const RDI: Reg := 7
  const R8: Reg := 8
  const R9: Reg := 9
  const R10: Reg := 10
  const R11: Reg := 11
  const R12: Reg := 12
  const R13: Reg := 13
  const R14: Reg := 14
  const R15: Reg := 15

  const SCRATCH: Reg := R15

  const SYSCALL_ARGS: seq<Reg> := [RDI, RSI, RDX, R10, R8, R9]
  const CALL_ARGS: seq<Reg> := [RDI, RSI, RDX, RCX, R8, R9]

  const RESERVED: set<string> := {"rbp", "rsp", "rip", "r15", "r11", "esp", "ebp"}

  const VIRTUAL: map<string, Reg> :=
    map["reg1" := RAX, "reg2" := RBX, "reg3" := RCX, "reg4" := RDX, "reg5" := RSI, "reg6" := RDI,
        "reg7" := R8, "reg8" := R9, "reg9" := R10, "reg10" := R12, "reg11" := R13, "reg12" := R14]

  const VIRTUAL_COMPAT: map<string, Reg> := map["reg13" := R14]

  const PARTIAL32: map<string, Reg> :=
    map["eax" := RAX, "ebx" := RBX, "ecx" := RCX, "edx" := RDX, "esi" := RSI, "edi" := RDI,
        "r8d" := R8, "r9d" := R9, "r10d" := R10, "r12d" := R12, "r13d" := R13, "r14d" := R14]

  const PHYSICAL: map<string, Reg> :=
    map["rax" := RAX, "rbx" := RBX, "rcx" := RCX, "rdx" := RDX, "rsi" := RSI, "rdi" := RDI,
        "r8" := R8, "r9" := R9, "r10" := R10, "r12" := R12, "r13" := R13, "r14" := R14]

  const USER: set<Reg> := {RAX, RBX, RCX, RDX, RSI, RDI, R8, R9, R10, R12, R13, R14}

  predicate IsBlank(c: char) {
    c == ' ' || c == '\t' || c == '\n' || c == '\r' || c == '\U{000b}' || c == '\U{000c}' ||
      '\U{001c}' <= c <= '\U{001f}'
  }

  function LowerChar(c: char): char {
    if 'A' <= c <= 'Z' then ((c as int) + 32) as char else c
  }

  function Lower(s: string): (t: string)
    ensures |t| == |s|
  {
    seq(|s|, i requires 0 <= i < |s| => LowerChar(s[i]))
  }

  function StripLeft(s: string): string {
    if s != [] && IsBlank(s[0]) then StripLeft(s[1..]) else s
  }

  function StripRight(s: string): string {
    if s != [] && IsBlank(s[|s| - 1]) then StripRight(s[..|s| - 1]) else s
  }

  /** `name.strip().lower()`. */
  function Canon(name: string): string {
    Lower(StripRight(StripLeft(name)))
  }

  /** `resolve`: None is the ValueError of a reserved or unknown name. */
  function Resolve(name: string): Option<Reg> {
    Lookup(Canon(name))
  }

  function Lookup(n: string): Option<Reg> {
    if n in RESERVED then None
    else if n in VIRTUAL then Some(VIRTUAL[n])
    else if n in VIRTUAL_COMPAT then Some(VIRTUAL_COMPAT[n])
    else if n in PARTIAL32 then Some(PARTIAL32[n])
    else if n in PHYSICAL then Some(PHYSICAL[n])
    else None
  }

  predicate IsRegName(name: string) {
    var n := Canon(name);
    n in VIRTUAL || n in VIRTUAL_COMPAT || n in PHYSICAL || n in PARTIAL32
  }

  /** No spelling of a user register reaches r11, r15, rbp or rsp, and `is_reg_name` is exactly
      the domain of `resolve`: the code generator's scratch registers are out of reach. */
  lemma ResolveIsUser(name: string)
    ensures Resolve(name).Some? ==> Resolve(name).value in USER
    ensures Resolve(name).Some? ==> Resolve(name).value !in {R11, R15, RBP, RSP}
    ensures Resolve(name).Some? <==> IsRegName(name)
  {
    var n := Canon(name);
    assert n in VIRTUAL ==> VIRTUAL[n] in USER;
    assert n in VIRTUAL_COMPAT ==> VIRTUAL_COMPAT[n] in USER;
    assert n in PARTIAL32 ==> PARTIAL32[n] in USER;
    assert n in PHYSICAL ==> PHYSICAL[n] in USER;
    if n in RESERVED {
      ReservedNotNamed(n);
    }
  }

  lemma ReservedNotNamed(n: string)
    requires n in RESERVED
    ensures n !in VIRTUAL && n !in VIRTUAL_COMPAT && n !in PARTIAL32 && n !in PHYSICAL
  {
    assert |n| == 3 && n[2] in {'p', '5', '1'};
    NoNameEndsLikeReserved(n);
  }

  lemma NoNameEndsLikeReserved(n: string)
    ensures n in VIRTUAL ==> |n| > 3
    ensures n in VIRTUAL_COMPAT ==> |n| > 3
    ensures n in PARTIAL32 ==> |n| != 3 || n[2] in {'x', 'i', 'd'}
    ensures n in PHYSICAL ==> |n| != 3 || n[2] in {'x', 'i', '0', '2', '3', '4'}
  {
  }

  function VirtualName(r: Reg): string
    requires r in USER
  {
    if r == RAX then "reg1" else if r == RBX then "reg2" else if r == RCX then "reg3"
    else if r == RDX then "reg4" else if r == RSI then "reg5" else if r == RDI then "reg6"
    else if r == R8 then "reg7" else if r == R9 then "reg8" else if r == R10 then "reg9"
    else if r == R12 then "reg10" else if r == R13 then "reg11" else "reg12"
  }

  /** Every user register has exactly one current virtual name; only the old name `reg13` aliases. */
  lemma VirtualNames(r: Reg, a: string)
    requires r in USER
    ensures Resolve(VirtualName(r)) == Some(r)
    ensures a in VIRTUAL && VIRTUAL[a] == r ==> a == VirtualName(r)
  {
    var n := VirtualName(r);
    assert n in VIRTUAL && VIRTUAL[n] == r;
    CanonVirtual(n);
    ReservedNotVirtual(n);
  }

  lemma OldNameAliases()
    ensures Resolve("reg13") == Some(R14) && Resolve("reg12") == Some(R14)
  {
    CanonVirtual("reg12");
    ReservedNotVirtual("reg12");
    assert StripRight(StripLeft("reg13")) == "reg13";
    assert Lower("reg13") == "reg13";
    assert "reg13" !in VIRTUAL;
  }

  lemma VirtualResolves(n: string)
    requires n in VIRTUAL
    ensures Resolve(n) == Some(VIRTUAL[n])
  {
    CanonVirtual(n);
    ReservedNotVirtual(n);
  }

  lemma ReservedNotVirtual(n: string)
    requires n in VIRTUAL
    ensures n !in RESERVED
  {
    if n in RESERVED {
      ReservedNotNamed(n);
    }
  }

  lemma CanonVirtual(n: string)
    requires n in VIRTUAL
    ensures Canon(n) == n
  {
    assert |n| >= 4 && n[0] == 'r' && !IsBlank(n[|n| - 1]);
    assert StripLeft(n) == n && StripRight(n) == n;
    assert forall i | 0 <= i < |n| :: LowerChar(n[i]) == n[i];
    assert Lower(n) == n;
  }
}
