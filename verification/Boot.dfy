/** The bootable kernel image of ACLM/kernel_boot.py: regions, page tables, descriptor table, boot code. */
module Boot {
  import opened Wrappers
  import opened Words
  import opened Images

  const LOAD_ADDR: nat := 0x100000
  const HEADER_TOTAL: nat := EHDR32 + PHDR32

  // ---- boot code ----

  /** The instructions of the 32-bit trampoline and of the 64-bit stub. */
  datatype BootIns =
    | Cli
    | MovEsp(imm: nat)
    | MovEax(imm: nat)
    | MovEcx(imm: nat)
    | OrEax(imm: nat)
    | OrEax8(imm8: Byte)
    | Lgdt
    | ReadCr0
    | WriteCr0
    | WriteCr3
    | ReadCr4
    | WriteCr4
    | Rdmsr
    | Wrmsr
    | FarJmp(target: nat, selector: nat)
    | MovAx(ax: nat)
    | MovDs
    | MovEs
    | MovSs
    | MovRsp(quad: nat)
    | MovRax(quad: nat)
    | JmpRax

  function Code(i: BootIns): seq<Byte> {
    match i
    case Cli => [0xFA]
    case MovEsp(v) => [0xBC] + LE(v, 4)
    case MovEax(v) => [0xB8] + LE(v, 4)
    case MovEcx(v) => [0xB9] + LE(v, 4)
    case OrEax(v) => [0x0D] + LE(v, 4)
    case OrEax8(v) => [0x83, 0xC8, v]
    case Lgdt => [0x0F, 0x01, 0x10]
    case ReadCr0 => [0x0F, 0x20, 0xC0]
    case WriteCr0 => [0x0F, 0x22, 0xC0]
    case WriteCr3 => [0x0F, 0x22, 0xD8]
    case ReadCr4 => [0x0F, 0x20, 0xE0]
    case WriteCr4 => [0x0F, 0x22, 0xE0]
    case Rdmsr => [0x0F, 0x32]
    case Wrmsr => [0x0F, 0x30]
    case FarJmp(t, s) => [0xEA] + LE(t, 4) + LE(s, 2)
    case MovAx(v) => [0x66, 0xB8] + LE(v, 2)
    case MovDs => [0x8E, 0xD8]
    case MovEs => [0x8E, 0xC0]
    case MovSs => [0x8E, 0xD0]
    case MovRsp(v) => [0x48, 0xBC] + LE(v, 8)
    case MovRax(v) => [0x48, 0xB8] + LE(v, 8)
    case JmpRax => [0xFF, 0xE0]
  }

  function CodeAll(p: seq<BootIns>): seq<Byte> {
    if p == [] then [] else Code(p[0]) + CodeAll(p[1..])
  }

  const EFER: nat := 0xC0000080

  /** `build_trampoline32`. */
  function Trampoline(pml4: nat, gdtr: nat, stub: nat): seq<BootIns> {
    [Cli, MovEsp(0x90000), MovEax(gdtr), Lgdt] +
    [ReadCr4, OrEax8(0x20), WriteCr4, MovEax(pml4), WriteCr3] +
    [MovEcx(EFER), Rdmsr, OrEax(0x100), Wrmsr] +
    [ReadCr0, OrEax(0x80000001), WriteCr0] +
    [FarJmp(stub, 8)]
  }

  /** `build_long_mode_stub64`. */
  function Stub(kmain: nat): seq<BootIns> {
    [MovAx(0x10), MovDs, MovEs, MovSs, MovRsp(0x90000), MovRax(kmain), JmpRax]
  }

  const TRAMPOLINE_SIZE: nat := 63
  const STUB_SIZE: nat := 32

  lemma {:induction false} CodeConcat(a: seq<BootIns>, b: seq<BootIns>)
    ensures CodeAll(a + b) == CodeAll(a) + CodeAll(b)
  {
    hide Code;
    if a == [] {
      assert a + b == b;
    } else {
      assert (a + b)[1..] == a[1..] + b;
      CodeConcat(a[1..], b);
    }
  }

  /** Neither size depends on the addresses, so measuring a dummy first is sound. */
  lemma BootCodeSizes(pml4: nat, gdtr: nat, stub: nat, kmain: nat)
    ensures |CodeAll(Trampoline(pml4, gdtr, stub))| == TRAMPOLINE_SIZE
    ensures |CodeAll(Stub(kmain))| == STUB_SIZE
  {
    var a, b := [Cli, MovEsp(0x90000), MovEax(gdtr), Lgdt], [ReadCr4, OrEax8(0x20), WriteCr4, MovEax(pml4), WriteCr3];
    var c, d, e := [MovEcx(EFER), Rdmsr, OrEax(0x100), Wrmsr], [ReadCr0, OrEax(0x80000001), WriteCr0],
      [FarJmp(stub, 8)];
    CodeConcat(a, b);
    CodeConcat(a + b, c);
    CodeConcat(a + b + c, d);
    CodeConcat(a + b + c + d, e);
    SizeOf4(a, Cli, MovEsp(0x90000), MovEax(gdtr), Lgdt);
    SizeOf4(b[..4], ReadCr4, OrEax8(0x20), WriteCr4, MovEax(pml4));
    assert b[..4] + b[4..] == b;
    CodeConcat(b[..4], b[4..]);
    assert b[4..] == [WriteCr3];
    SizeOf4(c, MovEcx(EFER), Rdmsr, OrEax(0x100), Wrmsr);
    var s := Stub(kmain);
    SizeOf4(s[..4], MovAx(0x10), MovDs, MovEs, MovSs);
    assert s[..4] + s[4..] == s;
    CodeConcat(s[..4], s[4..]);
    assert s[4..] == [MovRsp(0x90000), MovRax(kmain), JmpRax];
    SizeOf3(s[4..]);
    SizeOf3(d);
    assert CodeAll([WriteCr3]) == Code(WriteCr3) && CodeAll(e) == Code(e[0]);
  }

  lemma SizeOf3(p: seq<BootIns>)
    requires |p| == 3
    ensures |CodeAll(p)| == |Code(p[0])| + |Code(p[1])| + |Code(p[2])|
  {
    hide Code;
    assert p[1..][1..] == [p[2]];
    assert CodeAll([p[2]]) == Code(p[2]);
  }

  lemma SizeOf4(p: seq<BootIns>, i: BootIns, j: BootIns, k: BootIns, l: BootIns)
    requires p == [i, j, k, l]
    ensures |CodeAll(p)| == |Code(i)| + |Code(j)| + |Code(k)| + |Code(l)|
  {
    hide Code;
    assert p[1..] == [j, k, l];
    SizeOf3(p[1..]);
  }

  // ---- tables ----

  /** `build_multiboot_header`: magic, flags, checksum. */
  const MULTIBOOT_MAGIC: nat := 0x1BADB002
  const MULTIBOOT_FLAGS: nat := 3
  const MULTIBOOT_CHECKSUM: nat := TWO32 - (MULTIBOOT_MAGIC + MULTIBOOT_FLAGS)
  function Multiboot(): seq<Fld> {
    [Fld(4, MULTIBOOT_MAGIC), Fld(4, MULTIBOOT_FLAGS), Fld(4, MULTIBOOT_CHECKSUM)]
  }

  const MULTIBOOT_SIZE: nat := 12

  /** A segment descriptor as `build_gdt` packs it. */
  function Descriptor(access: Byte, flags: Byte): seq<Byte> {
    [0xFF, 0xFF, 0, 0, 0, access, flags, 0]
  }

  const NULL_DESCRIPTOR: seq<Byte> := [0, 0, 0, 0, 0, 0, 0, 0]

  /** `build_gdt`: null, kernel code, kernel data, user code, user data. */
  function Gdt(): (s: seq<Byte>)
    ensures |s| == GDT_SIZE
  {
    NULL_DESCRIPTOR + Descriptor(0x9A, 0xA0) + Descriptor(0x92, 0xC0) + Descriptor(0xFA, 0xA0) + Descriptor(0xF2, 0xC0)
  }

  const GDT_SIZE: nat := 40

  /** The table's limit and address, for lgdt. */
  function Gdtr(gdt: nat): seq<Fld> {
    [Fld(2, GDT_SIZE - 1), Fld(4, gdt)]
  }

  // ---- page tables ----

  const TABLES_SIZE: nat := 3 * 4096

  /** `struct.pack_into("<Q", …)`. */
  function Put(s: seq<Byte>, at: nat, v: nat): (t: seq<Byte>)
    requires at + 8 <= |s|
    ensures |t| == |s|
  {
    s[..at] + LE(v, 8) + s[at + 8..]
  }

  /** An address with the present and writable bits. */
  function TableEntry(phys: nat): nat {
    phys / 4096 * 4096 + 3
  }

  /** A present, writable 2 MiB page. */
  function LargePage(i: nat): nat {
    i * 0x200000 + 0x83
  }

  function PutPages(s: seq<Byte>, n: nat): (t: seq<Byte>)
    requires |s| == TABLES_SIZE && n <= 512
    ensures |t| == |s|
  {
    if n == 0 then s else Put(PutPages(s, n - 1), 8 * (1024 + n - 1), LargePage(n - 1))
  }

  function PatchTables(s: seq<Byte>, pdpt: nat, pd: nat): (t: seq<Byte>)
    requires |s| == TABLES_SIZE
    ensures |t| == |s|
  {
    PutPages(Put(Put(s, 0, TableEntry(pdpt)), 4096, TableEntry(pd)), 512)
  }

  lemma PutEntry(s: seq<Byte>, at: nat, v: nat, other: nat)
    requires at + 8 <= |s| && other + 8 <= |s| && v < TWO64
    ensures WordAt(Put(s, at, v), at) == v
    ensures other + 8 <= at || at + 8 <= other ==> WordAt(Put(s, at, v), other) == WordAt(s, other)
  {
    hide LE, FromLE;
    LE8(v);
    assert Put(s, at, v)[at..at + 8] == LE(v, 8);
    if other + 8 <= at || at + 8 <= other {
      assert Put(s, at, v)[other..other + 8] == s[other..other + 8];
    }
  }

  lemma {:induction false} PageEntries(s: seq<Byte>, n: nat, e: nat)
    requires |s| == TABLES_SIZE && n <= 512 && e < 1536
    ensures WordAt(PutPages(s, n), 8 * e) == if 1024 <= e < 1024 + n then LargePage(e - 1024) else WordAt(s, 8 * e)
  {
    if n > 0 {
      hide WordAt, Put;
      PageEntries(s, n - 1, e);
      var last, before := 1024 + n - 1, PutPages(s, n - 1);
      PutEntry(before, 8 * last, LargePage(n - 1), 8 * e);
    }
  }

  lemma ZeroEntry(at: nat)
    requires at + 8 <= TABLES_SIZE
    ensures WordAt(Zeros(TABLES_SIZE), at) == 0
  {
    assert Zeros(TABLES_SIZE)[at..at + 8] == [0, 0, 0, 0, 0, 0, 0, 0];
    assert FromLE([0, 0, 0, 0, 0, 0, 0, 0]) == 0 by { AllZero(8); }
  }

  lemma {:induction false} AllZero(n: nat)
    ensures FromLE(Zeros(n)) == 0
    ensures n == 8 ==> Zeros(n) == [0, 0, 0, 0, 0, 0, 0, 0]
  {
    if n > 0 {
      assert Zeros(n)[1..] == Zeros(n - 1);
      AllZero(n - 1);
    }
  }

  /** Every entry of the three tables: one pointer in each of the first two, 512 pages in the third. */
  lemma TableEntries(pdpt: nat, pd: nat, e: nat)
    requires pdpt < TWO32 && pd < TWO32 && e < 1536
    ensures WordAt(PatchTables(Zeros(TABLES_SIZE), pdpt, pd), 8 * e) ==
            if e == 0 then TableEntry(pdpt)
            else if e == 512 then TableEntry(pd)
            else if e >= 1024 then LargePage(e - 1024)
            else 0
  {
    hide WordAt, Put;
    var z := Zeros(TABLES_SIZE);
    var s1 := Put(z, 0, TableEntry(pdpt));
    ZeroEntry(8 * e);
    PutEntry(z, 0, TableEntry(pdpt), 8 * e);
    PutEntry(s1, 4096, TableEntry(pd), 8 * e);
    PageEntries(Put(s1, 4096, TableEntry(pd)), 512, e);
  }

  method PutWord(a: array<Byte>, at: nat, v: nat)
    requires at + 8 <= a.Length
    modifies a
    ensures a[..] == Put(old(a[..]), at, v)
  {
    var bytes := LE(v, 8);
    var i := 0;
    while i < 8
      invariant 0 <= i <= 8
      invariant forall k | 0 <= k < a.Length :: a[k] == if at <= k < at + i then bytes[k - at] else old(a[k])
    {
      a[at + i] := bytes[i];
      i := i + 1;
    }
    assert a[..] == Put(old(a[..]), at, v);
  }

  /** `patch_page_tables`, in place. */
  method PatchPageTables(a: array<Byte>, pdpt: nat, pd: nat)
    requires a.Length == TABLES_SIZE
    modifies a
    ensures a[..] == PatchTables(old(a[..]), pdpt, pd)
  {
    hide Put;
    PutWord(a, 0, TableEntry(pdpt));
    PutWord(a, 4096, TableEntry(pd));
    ghost var s := a[..];
    var i := 0;
    while i < 512
      invariant 0 <= i <= 512 && a[..] == PutPages(s, i)
    {
      PutWord(a, 8192 + i * 8, LargePage(i));
      i := i + 1;
    }
  }

  // ---- layout ----

  /** Offsets of the regions in the blob. */
  datatype Regions = Regions(pml4: nat, pdpt: nat, pd: nat, gdtr: nat, gdt: nat, stub: nat, user: nat)

  function CodeStart(loadAddr: nat): nat {
    loadAddr + HEADER_TOTAL
  }

  /** Offset of the next physical address divisible by `a`. */
  function AlignOffset(start: nat, off: nat, a: nat): (r: nat)
    requires a > 0
    ensures off <= r < off + a && (start + r) % a == 0
  {
    AlignUpIs(start + off, a);
    AlignUp(start + off, a) - start
  }

  function Plan(loadAddr: nat): Regions {
    var start := CodeStart(loadAddr);
    var pml4 := AlignOffset(start, MULTIBOOT_SIZE + TRAMPOLINE_SIZE, 4096);
    var gdtr := pml4 + TABLES_SIZE;
    var gdt := AlignOffset(start, gdtr + 6, 8);
    var stub := AlignOffset(start, gdt + GDT_SIZE, 16);
    Regions(pml4, pml4 + 4096, pml4 + 8192, gdtr, gdt, stub, AlignOffset(start, stub + STUB_SIZE, 16))
  }

  /** Regions are in order, disjoint and aligned; the whole layout is fixed before the payload. */
  lemma PlanOrdered(loadAddr: nat)
    ensures var p, start := Plan(loadAddr), CodeStart(loadAddr);
            && MULTIBOOT_SIZE + TRAMPOLINE_SIZE <= p.pml4 && p.pml4 + 4096 == p.pdpt && p.pdpt + 4096 == p.pd
            && p.pd + 4096 == p.gdtr && p.gdtr + 6 <= p.gdt && p.gdt + GDT_SIZE <= p.stub &&
                 p.stub + STUB_SIZE <= p.user
            && p.user < 0x5000
            && (start + p.pml4) % 4096 == 0 && (start + p.pdpt) % 4096 == 0 && (start + p.pd) % 4096 == 0
            && (start + p.gdt) % 8 == 0 && (start + p.stub) % 16 == 0 && (start + p.user) % 16 == 0
  {
  }

  /** The alignment loops: they stop at the first aligned physical address. */
  method AlignLoop(start: nat, off: nat, a: nat) returns (r: nat)
    requires a > 0
    ensures r == AlignOffset(start, off, a)
  {
    r := off;
    AlignUpIs(start + off, a);
    while (start + r) % a != 0
      invariant off <= r <= AlignOffset(start, off, a)
      decreases AlignOffset(start, off, a) - r
    {
      r := r + 1;
    }
    AlignUpLeast(start + off, start + r, a);
  }

  /** The aligned address is the first one. */
  lemma AlignUpLeast(n: nat, m: nat, a: nat)
    requires a > 0 && n <= m && m % a == 0
    ensures AlignUp(n, a) <= m
  {
    var q, k := (n + a - 1) / a, m / a;
    DivAlgorithm(m, a);
    DivAlgorithm(n + a - 1, a);
    assert k * a - q * a == (k - q) * a;
    MulGrows(k - q, a);
  }

  const HALT_LOOP: seq<Byte> := [0xF4, 0xEB, 0xFE]
  const NOP: Byte := 0x90

  /** The image contents for a payload. */
  function Blob(user: seq<Byte>, data: seq<Byte>, loadAddr: nat): seq<Byte> {
    var p, start := Plan(loadAddr), CodeStart(loadAddr);
    BootHead(p, start) + BootTail(p, start) + user + data + HALT_LOOP
  }

  lemma SmallTables(gdt: nat)
    ensures |Pack(Multiboot())| == MULTIBOOT_SIZE && |Pack(Gdtr(gdt))| == 6
  {
    hide FieldOff;
    FieldZero(Multiboot());
    FieldStep(Multiboot(), 0);
    FieldStep(Multiboot(), 1);
    FieldStep(Multiboot(), 2);
    FieldZero(Gdtr(gdt));
    FieldStep(Gdtr(gdt), 0);
    FieldStep(Gdtr(gdt), 1);
  }

  predicate Ordered(p: Regions) {
    && MULTIBOOT_SIZE + TRAMPOLINE_SIZE <= p.pml4 && p.pml4 + TABLES_SIZE == p.gdtr
    && p.gdtr + 6 <= p.gdt && p.gdt + GDT_SIZE <= p.stub && p.stub + STUB_SIZE <= p.user
  }

  /** The trampoline, pointed at the page tables, the descriptor table register and the stub. */
  function TrampolineCode(p: Regions, start: nat): (s: seq<Byte>)
    ensures |s| == TRAMPOLINE_SIZE
  {
    hide CodeAll, Trampoline, Code;
    BootCodeSizes(start + p.pml4, start + p.gdtr, start + p.stub, 0);
    CodeAll(Trampoline(start + p.pml4, start + p.gdtr, start + p.stub))
  }

  function StubCode(p: Regions, start: nat): (s: seq<Byte>)
    ensures |s| == STUB_SIZE
  {
    BootCodeSizes(0, 0, 0, start + p.user);
    CodeAll(Stub(start + p.user))
  }

  function PageTables(p: Regions, start: nat): (s: seq<Byte>)
    ensures |s| == TABLES_SIZE
  {
    PatchTables(Zeros(TABLES_SIZE), start + p.pdpt, start + p.pd)
  }

  function MultibootHeader(): (s: seq<Byte>)
    ensures |s| == MULTIBOOT_SIZE
  {
    SmallTables(0);
    Pack(Multiboot())
  }

  function GdtrBytes(p: Regions, start: nat): (s: seq<Byte>)
    ensures |s| == 6
  {
    SmallTables(start + p.gdt);
    Pack(Gdtr(start + p.gdt))
  }

  /** Multiboot header, trampoline and page tables. */
  function BootHead(p: Regions, start: nat): (s: seq<Byte>)
    requires Ordered(p)
    ensures |s| == p.gdtr
  {
    MultibootHeader() + TrampolineCode(p, start) + Zeros(p.pml4 - MULTIBOOT_SIZE - TRAMPOLINE_SIZE) +
      PageTables(p, start)
  }

  /** Descriptor table register, descriptor table and 64-bit stub. */
  function BootTail(p: Regions, start: nat): (s: seq<Byte>)
    requires Ordered(p)
    ensures |s| == p.user - p.gdtr
  {
    GdtrBytes(p, start) + Fill(p.gdt - p.gdtr - 6, 0) +
    Gdt() + Fill(p.stub - p.gdt - GDT_SIZE, NOP) +
    StubCode(p, start) + Fill(p.user - p.stub - STUB_SIZE, NOP)
  }

  /** `build_long_mode_kernel`: None is struct.error. Addresses stay below 2^32. */
  function Kernel(user: seq<Byte>, data: seq<Byte>, loadAddr: nat): Option<seq<Byte>> {
    Elf32(Blob(user, data, loadAddr), MULTIBOOT_SIZE, loadAddr)
  }

  /** The regions, computed by advancing one offset through the alignment loops. */
  method PlanRegions(loadAddr: nat) returns (p: Regions)
    ensures p == Plan(loadAddr)
  {
    var start := CodeStart(loadAddr);
    var pml4 := AlignLoop(start, MULTIBOOT_SIZE + TRAMPOLINE_SIZE, 4096);
    var off := pml4 + 4096 + 4096 + 4096;
    var gdtr := off;
    var gdt := AlignLoop(start, gdtr + 6, 8);
    var stub := AlignLoop(start, gdt + GDT_SIZE, 16);
    var user := AlignLoop(start, stub + STUB_SIZE, 16);
    return Regions(pml4, pml4 + 4096, pml4 + 8192, gdtr, gdt, stub, user);
  }

  method BuildHead(p: Regions, start: nat) returns (blob: seq<Byte>)
    requires Ordered(p)
    ensures blob == BootHead(p, start)
  {
    hide TrampolineCode, MultibootHeader, PatchTables, Fill;
    var pages := new Byte[TABLES_SIZE](i => 0);
    assert pages[..] == Zeros(TABLES_SIZE) by { ZeroArray(pages[..]); }
    PatchPageTables(pages, start + p.pdpt, start + p.pd);
    blob := MultibootHeader() + TrampolineCode(p, start);
    blob := PadTo(blob, p.pml4, 0);
    blob := blob + pages[..];
  }

  method BuildTail(p: Regions, start: nat, head: seq<Byte>) returns (blob: seq<Byte>)
    requires Ordered(p) && |head| == p.gdtr
    ensures blob == head + BootTail(p, start)
  {
    hide StubCode, GdtrBytes, Fill, Gdt;
    var t := GdtrBytes(p, start);
    blob := head + t;
    blob := PadTo(blob, p.gdt, 0);
    ghost var t1 := t + Fill(p.gdt - p.gdtr - 6, 0);
    assert blob == head + t1;
    blob := blob + Gdt();
    assert blob == head + (t1 + Gdt());
    blob := PadTo(blob, p.stub, NOP);
    ghost var t2 := t1 + Gdt() + Fill(p.stub - p.gdt - GDT_SIZE, NOP);
    assert blob == head + t2;
    blob := blob + StubCode(p, start);
    ghost var t3 := t2 + StubCode(p, start);
    assert blob == head + t3;
    blob := PadTo(blob, p.user, NOP);
    assert blob == head + (t3 + Fill(p.user - p.stub - STUB_SIZE, NOP));
  }

  /** The image, grown region by region with the padding loops between them. */
  method BuildLongModeKernel(user: seq<Byte>, data: seq<Byte>, loadAddr: nat) returns (r: Option<seq<Byte>>)
    ensures r == Kernel(user, data, loadAddr)
  {
    hide BootHead, BootTail, Elf32, AlignOffset;
    var start := CodeStart(loadAddr);
    var p := PlanRegions(loadAddr);
    PlanOrdered(loadAddr);
    var blob := BuildHead(p, start);
    blob := PadTo(blob, p.gdtr, 0);
    assert blob == BootHead(p, start);
    blob := BuildTail(p, start, blob);
    r := Elf32(blob + user + data + HALT_LOOP, MULTIBOOT_SIZE, loadAddr);
  }

  lemma ZeroArray(s: seq<Byte>)
    requires forall i | 0 <= i < |s| :: s[i] == 0
    ensures s == Zeros(|s|)
  {
  }

}
