/** Booting the kernel image: its page tables, and the run from the Multiboot hand-off to the payload. */
module BootProofs {
  import opened Wrappers
  import opened Words
  import opened Isa
  import opened Images
  import opened Boot

  /** Physical memory: the loaded bytes, zero elsewhere. */
  datatype Ram = Ram(base: nat, bytes: seq<Byte>)

  function At(m: Ram, a: nat): Byte {
    if m.base <= a < m.base + |m.bytes| then m.bytes[a - m.base] else 0
  }

  function BytesOf(m: Ram, a: nat, n: nat): (s: seq<Byte>)
    ensures |s| == n
  {
    seq<Byte>(n, i requires 0 <= i < n => At(m, a + i))
  }

  function Quad(m: Ram, a: nat): nat {
    WordAt(BytesOf(m, a, 8), 0)
  }

  // ---- 4-level paging, section 4.5 of the Intel SDM, Vol. 3A ----

  predicate Present(e: nat) {
    e % 2 == 1
  }

  predicate Large(e: nat) {
    (e / 128) % 2 == 1
  }

  /** Bits 12 to 51 of an entry. */
  function Frame(e: nat): nat {
    e / 4096 % 0x100_0000_0000 * 4096
  }

  /** Translation of a 48-bit linear address; None is a page fault. */
  function Walk(m: Ram, cr3: nat, va: nat): Option<nat> {
    var e4 := Quad(m, Frame(cr3) + 8 * (va / 0x80_0000_0000 % 512));
    if !Present(e4) then None else
      var e3 := Quad(m, Frame(e4) + 8 * (va / 0x4000_0000 % 512));
      if !Present(e3) then None
      else if Large(e3) then Some(e3 / 0x4000_0000 * 0x4000_0000 + va % 0x4000_0000)
      else
        var e2 := Quad(m, Frame(e3) + 8 * (va / 0x20_0000 % 512));
        if !Present(e2) then None
        else if Large(e2) then Some(e2 / 0x20_0000 * 0x20_0000 + va % 0x20_0000)
        else
          var e1 := Quad(m, Frame(e2) + 8 * (va / 0x1000 % 512));
          if !Present(e1) then None else Some(Frame(e1) + va % 0x1000)
  }

  /** The three tables lie at `pml4`, `pml4 + 4096` and `pml4 + 8192`. */
  ghost predicate TablesAt(m: Ram, pml4: nat) {
    && pml4 % 4096 == 0 && pml4 + 8192 < TWO32
    && BytesOf(m, pml4, TABLES_SIZE) == PatchTables(Zeros(TABLES_SIZE), pml4 + 4096, pml4 + 8192)
  }

  lemma QuadIn(m: Ram, a: nat, n: nat, at: nat)
    requires at + 8 <= n
    ensures Quad(m, a + at) == WordAt(BytesOf(m, a, n), at)
  {
    assert BytesOf(m, a + at, 8)[0..8] == BytesOf(m, a, n)[at..at + 8];
  }

  /** Entry e of the tables in memory. */
  lemma EntryInMemory(m: Ram, pml4: nat, e: nat)
    requires TablesAt(m, pml4) && e < 1536
    ensures Quad(m, pml4 + 8 * e) ==
            if e == 0 then TableEntry(pml4 + 4096)
            else if e == 512 then TableEntry(pml4 + 8192)
            else if e >= 1024 then LargePage(e - 1024)
            else 0
  {
    hide Quad, WordAt, PatchTables, BytesOf;
    QuadIn(m, pml4, TABLES_SIZE, 8 * e);
    TableEntries(pml4 + 4096, pml4 + 8192, e);
  }

  lemma AlignedFrame(p: nat)
    requires p % 4096 == 0 && p < TWO32
    ensures Frame(p) == p && Frame(TableEntry(p)) == p && Present(TableEntry(p)) && !Large(TableEntry(p))
  {
    var k := p / 4096;
    DivAlgorithm(p, 4096);
    var e := TableEntry(p);
    assert p == k * 4096 && e == k * 4096 + 3;
    hide TableEntry;
    DivModUnique(e, 4096, k, 3);
    DivModUnique(e, 128, 32 * k, 3);
    DivModUnique(e, 2, 2048 * k + 1, 1);
    DivModUnique(32 * k, 2, 16 * k, 0);
    SmallMod(k, 0x100_0000_0000);
  }

  lemma LargeFrame(i: nat)
    ensures Present(LargePage(i)) && Large(LargePage(i)) && LargePage(i) / 0x20_0000 == i
  {
    var e := LargePage(i);
    assert e == i * 0x20_0000 + 0x83;
    hide LargePage;
    DivModUnique(e, 0x20_0000, i, 0x83);
    DivModUnique(e, 128, 16384 * i + 1, 3);
    DivModUnique(16384 * i + 1, 2, 8192 * i, 1);
    DivModUnique(e, 2, 0x10_0000 * i + 0x41, 1);
  }

  /** The page tables map every address below 1 GiB to itself, and none from 1 GiB to the top of the
      48-bit linear address space. */
  lemma PageTablesMap(m: Ram, pml4: nat, va: nat)
    requires TablesAt(m, pml4) && va < 0x1_0000_0000_0000
    ensures Walk(m, pml4, va) == if va < 0x4000_0000 then Some(va) else None
  {
    hide TablesAt, Quad, TableEntry, LargePage;
    assert pml4 % 4096 == 0 && pml4 + 8192 < TWO32 by { TablesAligned(m, pml4); }
    var i4, i3, i2 := va / 0x80_0000_0000 % 512, va / 0x4000_0000 % 512, va / 0x20_0000 % 512;
    AlignedFrame(pml4);
    AlignedFrame(pml4 + 4096);
    AlignedFrame(pml4 + 8192);
    EntryInMemory(m, pml4, i4);
    EntryInMemory(m, pml4, 512 + i3);
    EntryInMemory(m, pml4, 1024 + i2);
    LargeFrame(i2);
    IndexRanges(va);
  }

  lemma IndexRanges(va: nat)
    requires va < 0x1_0000_0000_0000
    ensures va / 0x80_0000_0000 % 512 == 0 <==> va < 0x80_0000_0000
    ensures va < 0x80_0000_0000 ==> (va / 0x4000_0000 % 512 == 0 <==> va < 0x4000_0000)
    ensures va < 0x4000_0000 ==> va / 0x20_0000 % 512 * 0x20_0000 + va % 0x20_0000 == va
  {
    assert va / 0x80_0000_0000 < 512;
    if va < 0x80_0000_0000 {
      assert va / 0x4000_0000 < 512;
    }
    if va < 0x4000_0000 {
      assert va / 0x20_0000 < 512;
    }
  }

  lemma TablesAligned(m: Ram, pml4: nat)
    requires TablesAt(m, pml4)
    ensures pml4 % 4096 == 0 && pml4 + 8192 < TWO32
  {
  }

  // ---- the processor during boot ----

  datatype BootCpu = BootCpu(rax: nat, rcx: nat, rdx: nat, rsp: nat, cr0: nat, cr3: nat, cr4: nat, efer: nat,
                             gdtBase: nat, gdtLimit: nat, cs: nat, ds: nat, es: nat, ss: nat, long: bool, pc: nat)

  predicate Paging(s: BootCpu) {
    BitAt(s.cr0, 31)
  }

  /** Long mode is active: paging is on with EFER.LME and CR4.PAE. */
  predicate LongActive(s: BootCpu) {
    Paging(s) && BitAt(s.efer, 8) && BitAt(s.cr4, 5)
  }

  /** Linear to physical. Paging without long mode is not modelled. */
  function Translate(m: Ram, s: BootCpu, a: nat): Option<nat> {
    if !Paging(s) then Some(a) else if LongActive(s) then Walk(m, s.cr3, a) else None
  }

  /** Bytes at a linear address. */
  function Fetch(m: Ram, s: BootCpu, a: nat, n: nat): Option<seq<Byte>> {
    if n == 0 then Some([])
    else
      var rest := Fetch(m, s, a, n - 1);
      var p := Translate(m, s, a + n - 1);
      if rest.None? || p.None? then None else Some(rest.value + [At(m, p.value)])
  }

  /** First instruction of a byte string of at least ten bytes. */
  function DecodeBoot(b: seq<Byte>, long: bool): Option<(BootIns, nat)>
    requires |b| >= 10
  {
    var imm32 := FromLE(b[1..5]);
    if !long then
      if b[0] == 0xFA then Some((Cli, 1))
      else if b[0] == 0xBC then Some((MovEsp(imm32), 5))
      else if b[0] == 0xB8 then Some((MovEax(imm32), 5))
      else if b[0] == 0xB9 then Some((MovEcx(imm32), 5))
      else if b[0] == 0x0D then Some((OrEax(imm32), 5))
      else if b[0] == 0x83 && b[1] == 0xC8 then Some((OrEax8(b[2]), 3))
      else if b[0] == 0xEA then Some((FarJmp(imm32, FromLE(b[5..7])), 7))
      else if b[0] == 0x0F then
        if b[1] == 0x01 && b[2] == 0x10 then Some((Lgdt, 3))
        else if b[1] == 0x20 && b[2] == 0xC0 then Some((ReadCr0, 3))
        else if b[1] == 0x22 && b[2] == 0xC0 then Some((WriteCr0, 3))
        else if b[1] == 0x22 && b[2] == 0xD8 then Some((WriteCr3, 3))
        else if b[1] == 0x20 && b[2] == 0xE0 then Some((ReadCr4, 3))
        else if b[1] == 0x22 && b[2] == 0xE0 then Some((WriteCr4, 3))
        else if b[1] == 0x32 then Some((Rdmsr, 2))
        else if b[1] == 0x30 then Some((Wrmsr, 2))
        else None
      else None
    else
      if b[0] == 0x66 && b[1] == 0xB8 then Some((MovAx(FromLE(b[2..4])), 4))
      else if b[0] == 0x8E && b[1] == 0xD8 then Some((MovDs, 2))
      else if b[0] == 0x8E && b[1] == 0xC0 then Some((MovEs, 2))
      else if b[0] == 0x8E && b[1] == 0xD0 then Some((MovSs, 2))
      else if b[0] == 0x48 && b[1] == 0xBC then Some((MovRsp(FromLE(b[2..10])), 10))
      else if b[0] == 0x48 && b[1] == 0xB8 then Some((MovRax(FromLE(b[2..10])), 10))
      else if b[0] == 0xFF && b[1] == 0xE0 then Some((JmpRax, 2))
      else None
  }

  /** Fields fit, and the instruction belongs to the mode. */
  predicate Native(i: BootIns, long: bool) {
    match i
    case MovEsp(v) => !long && v < TWO32
    case MovEax(v) => !long && v < TWO32
    case MovEcx(v) => !long && v < TWO32
    case OrEax(v) => !long && v < TWO32
    case FarJmp(t, s) => !long && t < TWO32 && s < 0x1_0000
    case MovAx(v) => long && v < 0x1_0000
    case MovRsp(v) => long && v < TWO64
    case MovRax(v) => long && v < TWO64
    case MovDs | MovEs | MovSs | JmpRax => long
    case _ => !long
  }

  lemma DecodeCode(i: BootIns, long: bool, rest: seq<Byte>)
    requires Native(i, long) && |Code(i) + rest| >= 10
    ensures DecodeBoot(Code(i) + rest, long) == Some((i, |Code(i)|))
  {
    hide FromLE, LE;
    var b := Code(i) + rest;
    Pow256At();
    if i.MovEsp? || i.MovEax? || i.MovEcx? || i.OrEax? {
      LE4(i.imm);
      assert b[1..5] == LE(i.imm, 4);
    } else if i.FarJmp? {
      LE4(i.target);
      LERoundTrip(i.selector, 2);
      assert b[1..5] == LE(i.target, 4) && b[5..7] == LE(i.selector, 2);
    } else if i.MovAx? {
      LERoundTrip(i.ax, 2);
      assert b[2..4] == LE(i.ax, 2);
    } else if i.MovRsp? || i.MovRax? {
      LE8(i.quad);
      assert b[2..10] == LE(i.quad, 8);
    }
  }

  /** A segment descriptor in the current table. */
  function DescriptorAt(m: Ram, s: BootCpu, selector: nat): Option<seq<Byte>> {
    if selector + 7 <= s.gdtLimit then Fetch(m, s, s.gdtBase + selector, 8) else None
  }

  /** Present code or data segment. */
  predicate Usable(d: seq<Byte>, code: bool)
    requires |d| == 8
  {
    BitAt(d[5], 7) && BitAt(d[5], 4) && BitAt(d[5], 3) == code
  }

  /** Bit L set and bit D clear: a 64-bit code segment. */
  predicate Is64Bit(d: seq<Byte>)
    requires |d| == 8
  {
    BitAt(d[6], 5) && !BitAt(d[6], 6)
  }

  lemma {:induction false} FetchLength(m: Ram, s: BootCpu, a: nat, n: nat)
    ensures Fetch(m, s, a, n).Some? ==> |Fetch(m, s, a, n).value| == n
  {
    if n > 0 {
      FetchLength(m, s, a, n - 1);
    }
  }

  /** A data selector may be loaded. */
  predicate DataSelector(m: Ram, s: BootCpu, selector: nat) {
    FetchLength(m, s, s.gdtBase + selector, 8);
    var d := DescriptorAt(m, s, selector);
    d.Some? && Usable(d.value, false)
  }

  function OrWord(a: nat, b: nat): nat {
    Bitwise(BitOr, a, b)
  }

  /** One instruction, `s.pc` already past it. None is a fault or something not modelled. */
  function ExecBoot(m: Ram, i: BootIns, s: BootCpu): Option<BootCpu> {
    match i
    case Cli => Some(s)
    case MovEsp(v) => Some(s.(rsp := v))
    case MovEax(v) => Some(s.(rax := v))
    case MovEcx(v) => Some(s.(rcx := v))
    case OrEax(v) => Some(s.(rax := OrWord(s.rax, v)))
    case OrEax8(v) => Some(s.(rax := OrWord(s.rax, if v < 0x80 then v else v + 0xFFFF_FF00)))
    case Lgdt =>
      FetchLength(m, s, s.rax, 6);
      (match Fetch(m, s, s.rax, 6)
       case None => None
       case Some(b) => Some(s.(gdtLimit := FromLE(b[..2]), gdtBase := FromLE(b[2..]))))
    case ReadCr0 => Some(s.(rax := s.cr0))
    case WriteCr0 => Some(s.(cr0 := s.rax))
    case WriteCr3 => Some(s.(cr3 := s.rax))
    case ReadCr4 => Some(s.(rax := s.cr4))
    case WriteCr4 => Some(s.(cr4 := s.rax))
    case Rdmsr => if s.rcx == EFER then Some(s.(rdx := s.efer / TWO32, rax := s.efer % TWO32)) else None
    case Wrmsr => if s.rcx == EFER then Some(s.(efer := s.rdx * TWO32 + s.rax % TWO32)) else None
    case FarJmp(t, sel) =>
      FetchLength(m, s, s.gdtBase + sel, 8);
      (match DescriptorAt(m, s, sel)
       case None => None
       case Some(d) =>
         if Usable(d, true) then Some(s.(cs := sel, pc := t, long := LongActive(s) && Is64Bit(d))) else None)
    case MovAx(v) => Some(s.(rax := s.rax / 0x1_0000 * 0x1_0000 + v))
    case MovDs => if DataSelector(m, s, s.rax % 0x1_0000) then Some(s.(ds := s.rax % 0x1_0000)) else None
    case MovEs => if DataSelector(m, s, s.rax % 0x1_0000) then Some(s.(es := s.rax % 0x1_0000)) else None
    case MovSs => if DataSelector(m, s, s.rax % 0x1_0000) then Some(s.(ss := s.rax % 0x1_0000)) else None
    case MovRsp(v) => Some(s.(rsp := v))
    case MovRax(v) => Some(s.(rax := v))
    case JmpRax => Some(s.(pc := s.rax))
  }

  function BootStep(m: Ram, s: BootCpu): Option<BootCpu> {
    FetchLength(m, s, s.pc, 10);
    match Fetch(m, s, s.pc, 10)
    case None => None
    case Some(b) =>
      match DecodeBoot(b, s.long)
      case None => None
      case Some(d) => ExecBoot(m, d.0, s.(pc := s.pc + d.1))
  }

  function BootRun(m: Ram, s: BootCpu, n: nat): Option<BootCpu>
    decreases n
  {
    if n == 0 then Some(s)
    else (match BootStep(m, s) case None => None case Some(s') => BootRun(m, s', n - 1))
  }

  // ---- executing known bytes ----

  /** Addresses below the limit translate to themselves. */
  ghost predicate Flat(m: Ram, s: BootCpu) {
    forall a: nat | a < 0x4000_0000 :: Translate(m, s, a) == Some(a)
  }

  lemma {:induction false} FlatFetch(m: Ram, s: BootCpu, a: nat, n: nat)
    requires Flat(m, s) && a + n <= 0x4000_0000
    ensures Fetch(m, s, a, n) == Some(BytesOf(m, a, n))
  {
    hide Translate;
    if n == 0 {
    } else {
      FlatFetch(m, s, a, n - 1);
      assert BytesOf(m, a, n) == BytesOf(m, a, n - 1) + [At(m, a + n - 1)];
    }
  }

  /** What running known instructions one after the other does, fetches aside. */
  function ExecList(m: Ram, p: seq<BootIns>, s: BootCpu): Option<BootCpu> {
    if p == [] then Some(s)
    else
      match ExecBoot(m, p[0], s.(pc := s.pc + |Code(p[0])|))
      case None => None
      case Some(s') => ExecList(m, p[1..], s')
  }

  /** The listed instructions can be fetched in order: each is native and flat, and none jumps but the last. */
  ghost predicate Fetchable(m: Ram, p: seq<BootIns>, s: BootCpu) {
    p == [] ||
    var s1 := ExecBoot(m, p[0], s.(pc := s.pc + |Code(p[0])|));
    && Native(p[0], s.long) && Flat(m, s) && s.pc + 10 <= 0x4000_0000 && s1.Some?
    && (|p| > 1 ==> s1.value.pc == s.pc + |Code(p[0])|)
    && Fetchable(m, p[1..], s1.value)
  }

  lemma FetchCode(m: Ram, i: BootIns, s: BootCpu)
    requires Native(i, s.long) && Flat(m, s) && s.pc + 10 <= 0x4000_0000
    requires BytesOf(m, s.pc, |Code(i)|) == Code(i)
    ensures BootStep(m, s) == ExecBoot(m, i, s.(pc := s.pc + |Code(i)|))
  {
    hide DecodeBoot, ExecBoot, Flat, Fetch, Native;
    FlatFetch(m, s, s.pc, 10);
    var n := |Code(i)|;
    assert n <= 10 by { CodeShort(i); }
    var b := BytesOf(m, s.pc, 10);
    assert b == Code(i) + b[n..];
    DecodeCode(i, s.long, b[n..]);
  }

  lemma CodeShort(i: BootIns)
    ensures 1 <= |Code(i)| <= 10
  {
  }

  /** Bytes in memory that encode a fetchable list run as the list does. */
  lemma {:induction false} RunList(m: Ram, p: seq<BootIns>, s: BootCpu)
    requires Fetchable(m, p, s) && BytesOf(m, s.pc, |CodeAll(p)|) == CodeAll(p)
    ensures BootRun(m, s, |p|) == ExecList(m, p, s) && ExecList(m, p, s).Some?
    decreases |p|
  {
    hide ExecBoot, Code, BootStep, Flat, Native;
    if p != [] {
      var n := |Code(p[0])|;
      var bytes := BytesOf(m, s.pc, |CodeAll(p)|);
      assert BytesOf(m, s.pc, n) == bytes[..n] == Code(p[0]);
      FetchCode(m, p[0], s);
      var s1 := ExecBoot(m, p[0], s.(pc := s.pc + n)).value;
      if |p| > 1 {
        assert BytesOf(m, s1.pc, |CodeAll(p[1..])|) == bytes[n..] == CodeAll(p[1..]);
      } else {
        assert p[1..] == [];
      }
      RunList(m, p[1..], s1);
    }
  }

  lemma {:induction false} BootRunAdd(m: Ram, s: BootCpu, a: nat, b: nat)
    ensures BootRun(m, s, a + b) ==
            (match BootRun(m, s, a) case None => None case Some(s') => BootRun(m, s', b))
    decreases a
  {
    hide BootStep;
    if a > 0 && BootStep(m, s).Some? {
      BootRunAdd(m, BootStep(m, s).value, a - 1, b);
    }
  }

  // ---- bits ----

  lemma {:induction false} OrSetsBit(a: nat, b: nat, i: nat)
    requires BitAt(b, i)
    ensures BitAt(OrWord(a, b), i)
    decreases i
  {
    var o := OrWord(a, b);
    ZeroDiv(Pow2(i));
    assert b != 0;
    assert o == Bit1(BitOr, a % 2, b % 2) + 2 * OrWord(a / 2, b / 2);
    BitBound(BitOr, a % 2, b % 2);
    if i == 0 {
      assert b % 2 == 1;
      assert a % 2 == 0 || a % 2 == 1;
    } else {
      HalfBit(b, i);
      OrSetsBit(a / 2, b / 2, i - 1);
      HalfBit(o, i);
    }
  }

  lemma ZeroDiv(d: nat)
    requires d > 0
    ensures 0 / d == 0
  {
  }

  lemma HalfBit(x: nat, i: nat)
    requires i > 0
    ensures BitAt(x, i) <==> BitAt(x / 2, i - 1)
  {
    var p := Pow2(i - 1);
    DivDiv(x, p);
  }

  lemma DivDiv(x: nat, p: nat)
    requires p > 0
    ensures x / (2 * p) == (x / 2) / p
  {
    var q, r := (x / 2) / p, (x / 2) % p;
    DivAlgorithm(x / 2, p);
    assert x == q * (2 * p) + (2 * r + x % 2);
    DivModUnique(x, 2 * p, q, 2 * r + x % 2);
  }

  // ---- the loaded image ----

  /** Memory after loading the kernel. */
  function Loaded(user: seq<Byte>, data: seq<Byte>, loadAddr: nat): Ram {
    Ram(CodeStart(loadAddr), Blob(user, data, loadAddr))
  }

  /** That memory is what an ELF loader makes of the file, and execution starts at the trampoline. */
  lemma LoadedIsTheFile(user: seq<Byte>, data: seq<Byte>, loadAddr: nat)
    requires Kernel(user, data, loadAddr).Some?
    ensures var f, m := Kernel(user, data, loadAddr).value, Loaded(user, data, loadAddr);
            && Entry(f) == CodeStart(loadAddr) + MULTIBOOT_SIZE
            && LoadsAt(f, m.bytes, m.base)
  {
    hide Elf32, Blob, LoadsAt, Entry;
    Elf32Loads(Blob(user, data, loadAddr), MULTIBOOT_SIZE, loadAddr);
  }

  lemma BytesAre(m: Ram, at: nat, n: nat)
    requires at + n <= |m.bytes|
    ensures BytesOf(m, m.base + at, n) == m.bytes[at..at + n]
  {
    forall j | at <= j < at + n
      ensures At(m, m.base + j) == m.bytes[j]
    {
    }
  }

  lemma Slices4(s: seq<Byte>, a: seq<Byte>, b: seq<Byte>, c: seq<Byte>, d: seq<Byte>, x: nat, y: nat, w: nat)
    requires s == a + b + c + d && x == |a| && y == x + |b| && w == y + |c|
    ensures |s| == w + |d| && s[..x] == a && s[x..y] == b && s[w..] == d
  {
  }

  lemma HeadRegions(p: Regions, start: nat)
    requires Ordered(p)
    ensures var h := BootHead(p, start);
            && h[..MULTIBOOT_SIZE] == MultibootHeader()
            && h[MULTIBOOT_SIZE..MULTIBOOT_SIZE + TRAMPOLINE_SIZE] == TrampolineCode(p, start)
            && h[p.pml4..] == PageTables(p, start)
  {
    hide TrampolineCode, PageTables, MultibootHeader, Zeros;
    Slices4(BootHead(p, start), MultibootHeader(), TrampolineCode(p, start),
            Zeros(p.pml4 - MULTIBOOT_SIZE - TRAMPOLINE_SIZE), PageTables(p, start),
            MULTIBOOT_SIZE, MULTIBOOT_SIZE + TRAMPOLINE_SIZE, p.pml4);
  }

  lemma Slices6(s: seq<Byte>, a: seq<Byte>, b: seq<Byte>, c: seq<Byte>, d: seq<Byte>, e: seq<Byte>, f: seq<Byte>,
                x: nat, y: nat, z: nat)
    requires s == a + b + c + d + e + f && x == |a| && y == x + |b| && z == y + |c| + |d|
    ensures |s| == z + |e| + |f| && s[..x] == a && s[y..y + |c|] == c && s[z..z + |e|] == e
  {
    Slices4(s, a, b, c, d + e + f, x, y, y + |c|) by { assert s == a + b + c + (d + e + f); }
    Slices4(s, a + b, c, d, e + f, y, y + |c|, z) by { assert s == (a + b) + c + d + (e + f); }
    assert s[z..][..|e|] == e;
    assert s[y..y + |c|] == c;
  }

  lemma TailRegions(p: Regions, start: nat)
    requires Ordered(p)
    ensures var t := BootTail(p, start);
            && t[..6] == GdtrBytes(p, start)
            && t[p.gdt - p.gdtr..p.gdt - p.gdtr + GDT_SIZE] == Gdt()
            && t[p.stub - p.gdtr..p.stub - p.gdtr + STUB_SIZE] == StubCode(p, start)
  {
    hide StubCode, GdtrBytes, Gdt, Fill;
    Slices6(BootTail(p, start), GdtrBytes(p, start), Fill(p.gdt - p.gdtr - 6, 0), Gdt(),
            Fill(p.stub - p.gdt - GDT_SIZE, NOP), StubCode(p, start), Fill(p.user - p.stub - STUB_SIZE, NOP),
            6, p.gdt - p.gdtr, p.stub - p.gdtr);
  }

  /** Every region lies where the plan says. */
  ghost predicate InPlace(m: Ram, p: Regions, user: seq<Byte>, data: seq<Byte>) {
    && BytesOf(m, m.base + MULTIBOOT_SIZE, TRAMPOLINE_SIZE) == TrampolineCode(p, m.base)
    && BytesOf(m, m.base + p.pml4, TABLES_SIZE) == PageTables(p, m.base)
    && BytesOf(m, m.base + p.gdtr, 6) == GdtrBytes(p, m.base)
    && BytesOf(m, m.base + p.gdt, GDT_SIZE) == Gdt()
    && BytesOf(m, m.base + p.stub, STUB_SIZE) == StubCode(p, m.base)
    && BytesOf(m, m.base + p.user, |user|) == user
    && BytesOf(m, m.base + p.user + |user|, |data|) == data
  }

  lemma PartsInPlace(m: Ram, p: Regions, user: seq<Byte>, data: seq<Byte>)
    requires Ordered(p) && m.bytes == BootHead(p, m.base) + BootTail(p, m.base) + user + data + HALT_LOOP
    ensures InPlace(m, p, user, data)
  {
    hide TrampolineCode, StubCode, PageTables, GdtrBytes, Gdt, BytesOf, BootHead, BootTail;
    var h, t := BootHead(p, m.base), BootTail(p, m.base);
    HeadInPlace(m, p, h, t + user + data + HALT_LOOP);
    TailInPlace(m, p, h, t, user + data + HALT_LOOP);
    Inside(m, user, p.user, 0, |user|, data + HALT_LOOP, h + t);
    Inside(m, data, p.user + |user|, 0, |data|, HALT_LOOP, h + t + user);
  }

  lemma RegionsInMemory(user: seq<Byte>, data: seq<Byte>, loadAddr: nat)
    ensures InPlace(Loaded(user, data, loadAddr), Plan(loadAddr), user, data)
  {
    hide InPlace, BootHead, BootTail, Plan;
    PlanOrdered(loadAddr);
    PartsInPlace(Loaded(user, data, loadAddr), Plan(loadAddr), user, data);
  }

  lemma PrefixSlice(a: seq<Byte>, b: seq<Byte>, lo: nat, hi: nat)
    requires lo <= hi <= |a|
    ensures (a + b)[lo..hi] == a[lo..hi]
  {
  }

  lemma HeadInPlace(m: Ram, p: Regions, h: seq<Byte>, rest: seq<Byte>)
    requires Ordered(p) && h == BootHead(p, m.base) && m.bytes == h + rest
    ensures BytesOf(m, m.base + MULTIBOOT_SIZE, TRAMPOLINE_SIZE) == TrampolineCode(p, m.base)
    ensures BytesOf(m, m.base + p.pml4, TABLES_SIZE) == PageTables(p, m.base)
  {
    hide TrampolineCode, PageTables, BytesOf, BootHead;
    HeadRegions(p, m.base);
    BytesAre(m, MULTIBOOT_SIZE, TRAMPOLINE_SIZE);
    BytesAre(m, p.pml4, TABLES_SIZE);
    PrefixSlice(h, rest, MULTIBOOT_SIZE, MULTIBOOT_SIZE + TRAMPOLINE_SIZE);
    PrefixSlice(h, rest, p.pml4, |h|);
  }

  lemma TailInPlace(m: Ram, p: Regions, h: seq<Byte>, t: seq<Byte>, rest: seq<Byte>)
    requires Ordered(p) && |h| == p.gdtr && t == BootTail(p, m.base) && m.bytes == h + t + rest
    ensures BytesOf(m, m.base + p.gdtr, 6) == GdtrBytes(p, m.base)
    ensures BytesOf(m, m.base + p.gdt, GDT_SIZE) == Gdt()
    ensures BytesOf(m, m.base + p.stub, STUB_SIZE) == StubCode(p, m.base)
  {
    hide StubCode, GdtrBytes, Gdt, BytesOf, BootTail;
    TailRegions(p, m.base);
    Inside(m, t, p.gdtr, 0, 6, rest, h);
    Inside(m, t, p.gdtr, p.gdt - p.gdtr, GDT_SIZE, rest, h);
    Inside(m, t, p.gdtr, p.stub - p.gdtr, STUB_SIZE, rest, h);
  }

  lemma Inside(m: Ram, part: seq<Byte>, at: nat, off: nat, n: nat, after: seq<Byte>, before: seq<Byte>)
    requires m.bytes == before + part + after && |before| == at && off + n <= |part|
    ensures BytesOf(m, m.base + at + off, n) == part[off..off + n]
  {
    BytesAre(m, at + off, n);
  }

  // ---- the run ----

  lemma ListStep(m: Ram, i: BootIns, rest: seq<BootIns>, s: BootCpu)
    ensures var s1 := ExecBoot(m, i, s.(pc := s.pc + |Code(i)|));
            && ExecList(m, [i] + rest, s) == (match s1 case None => None case Some(t) => ExecList(m, rest, t))
            && (Fetchable(m, [i] + rest, s) <==>
                  Native(i, s.long) && Flat(m, s) && s.pc + 10 <= 0x4000_0000 && s1.Some?
                  && (rest != [] ==> s1.value.pc == s.pc + |Code(i)|) && Fetchable(m, rest, s1.value))
  {
    hide ExecBoot, Code, Native, Flat;
    assert ([i] + rest)[1..] == rest;
  }

  lemma ListEnd(m: Ram, s: BootCpu)
    ensures ExecList(m, [], s) == Some(s) && Fetchable(m, [], s)
  {
  }

  /** A list does not depend on how it is cut, as long as the first part does not jump. */
  lemma RunPart(m: Ram, a: seq<BootIns>, b: seq<BootIns>, s: BootCpu, s1: BootCpu)
    requires Fetchable(m, a, s) && ExecList(m, a, s) == Some(s1) && s1.pc == s.pc + |CodeAll(a)|
    requires BytesOf(m, s.pc, |CodeAll(a + b)|) == CodeAll(a + b)
    ensures BootRun(m, s, |a|) == Some(s1)
    ensures BytesOf(m, s1.pc, |CodeAll(b)|) == CodeAll(b)
  {
    hide ExecList, Fetchable, CodeAll;
    CodeConcat(a, b);
    var all, n := BytesOf(m, s.pc, |CodeAll(a + b)|), |CodeAll(a)|;
    assert BytesOf(m, s.pc, n) == all[..n] == CodeAll(a);
    assert BytesOf(m, s1.pc, |CodeAll(b)|) == all[n..] == CodeAll(b);
    RunList(m, a, s);
  }

  /** What Multiboot promises at the entry point, as far as the trampoline depends on it. */
  ghost predicate HandedOff(s: BootCpu, entry: nat) {
    !s.long && !Paging(s) && s.pc == entry && s.cr0 < TWO32 && s.cr4 < TWO32 && s.efer < TWO64
  }

  lemma UnpagedIsFlat(m: Ram, s: BootCpu)
    requires !Paging(s)
    ensures Flat(m, s)
  {
  }

  function LoadGdt(gdtr: nat): seq<BootIns> {
    [Cli] + ([MovEsp(0x90000)] + ([MovEax(gdtr)] + ([Lgdt] + [])))
  }

  lemma GdtLoaded(m: Ram, gdtr: nat, gdt: nat, s: BootCpu) returns (t: BootCpu)
    requires !s.long && !Paging(s) && s.pc + 30 <= 0x4000_0000 && gdtr + 6 <= 0x4000_0000 && gdt < TWO32
    requires BytesOf(m, gdtr, 6) == Pack(Gdtr(gdt))
    ensures Fetchable(m, LoadGdt(gdtr), s) && ExecList(m, LoadGdt(gdtr), s) == Some(t)
    ensures t == s.(rsp := 0x90000, rax := gdtr, gdtLimit := 39, gdtBase := gdt, pc := s.pc + 14)
  {
    hide Fetchable, ExecList, BytesOf, BitAt, Flat, PackFirst, FieldOff;
    var s1 := s.(pc := s.pc + 1);
    var s2 := s1.(rsp := 0x90000, pc := s.pc + 6);
    var s3 := s2.(rax := gdtr, pc := s.pc + 11);
    t := s3.(gdtLimit := 39, gdtBase := gdt, pc := s.pc + 14);
    UnpagedIsFlat(m, s);
    UnpagedIsFlat(m, s1);
    UnpagedIsFlat(m, s2);
    UnpagedIsFlat(m, s3);
    UnpagedIsFlat(m, s3.(pc := s.pc + 14));
    GdtrFields(m, gdtr, gdt, s3.(pc := s.pc + 14));
    ListEnd(m, t);
    ListStep(m, Lgdt, [], s3);
    ListStep(m, MovEax(gdtr), [Lgdt] + [], s2);
    ListStep(m, MovEsp(0x90000), [MovEax(gdtr)] + ([Lgdt] + []), s1);
    ListStep(m, Cli, [MovEsp(0x90000)] + ([MovEax(gdtr)] + ([Lgdt] + [])), s);
  }

  /** `lgdt` reads the limit and the address the image stored. */
  lemma GdtrFields(m: Ram, gdtr: nat, gdt: nat, s: BootCpu)
    requires Flat(m, s) && s.rax == gdtr && gdtr + 6 <= 0x4000_0000 && gdt < TWO32
    requires BytesOf(m, gdtr, 6) == Pack(Gdtr(gdt))
    ensures ExecBoot(m, Lgdt, s) == Some(s.(gdtLimit := 39, gdtBase := gdt))
  {
    hide BytesOf, Flat, Fetch, LE, FromLE;
    FlatFetch(m, s, gdtr, 6);
    var fs, b := Gdtr(gdt), Pack(Gdtr(gdt));
    FieldZero(fs);
    FieldStep(fs, 0);
    FieldStep(fs, 1);
    PackedField(fs, 2, 0);
    PackedField(fs, 2, 1);
    assert b[0..2] == LE(39, 2) && b[2..6] == LE(gdt, 4);
    assert b[..2] == b[0..2] && b[2..] == b[2..6];
    LERoundTrip(39, 2);
    Pow256At();
    LE4(gdt);
  }

  function LoadTables(pml4: nat): seq<BootIns> {
    [ReadCr4] + ([OrEax8(0x20)] + ([WriteCr4] + ([MovEax(pml4)] + ([WriteCr3] + []))))
  }

  lemma TablesLoaded(m: Ram, pml4: nat, s: BootCpu) returns (t: BootCpu)
    requires !s.long && !Paging(s) && s.pc + 30 <= 0x4000_0000 && pml4 < TWO32
    ensures Fetchable(m, LoadTables(pml4), s) && ExecList(m, LoadTables(pml4), s) == Some(t)
    ensures t == s.(cr4 := OrWord(s.cr4, 0x20), rax := pml4, cr3 := pml4, pc := s.pc + 17)
  {
    hide Fetchable, ExecList, BitAt, Flat, OrWord;
    var s1 := s.(rax := s.cr4, pc := s.pc + 3);
    var s2 := s1.(rax := OrWord(s.cr4, 0x20), pc := s.pc + 6);
    var s3 := s2.(cr4 := OrWord(s.cr4, 0x20), pc := s.pc + 9);
    var s4 := s3.(rax := pml4, pc := s.pc + 14);
    t := s4.(cr3 := pml4, pc := s.pc + 17);
    UnpagedIsFlat(m, s);
    UnpagedIsFlat(m, s1);
    UnpagedIsFlat(m, s2);
    UnpagedIsFlat(m, s3);
    UnpagedIsFlat(m, s4);
    ListEnd(m, t);
    ListStep(m, WriteCr3, [], s4);
    ListStep(m, MovEax(pml4), [WriteCr3] + [], s3);
    ListStep(m, WriteCr4, [MovEax(pml4)] + ([WriteCr3] + []), s2);
    ListStep(m, OrEax8(0x20), [WriteCr4] + ([MovEax(pml4)] + ([WriteCr3] + [])), s1);
    ListStep(m, ReadCr4, [OrEax8(0x20)] + ([WriteCr4] + ([MovEax(pml4)] + ([WriteCr3] + []))), s);
  }

  function EnableLong(): seq<BootIns> {
    [MovEcx(EFER)] + ([Rdmsr] + ([OrEax(0x100)] + ([Wrmsr] + [])))
  }

  /** EFER after setting LME through edx:eax. */
  function WithLme(efer: nat): nat {
    efer / TWO32 * TWO32 + OrWord(efer % TWO32, 0x100) % TWO32
  }

  lemma LongEnabled(m: Ram, s: BootCpu) returns (t: BootCpu)
    requires !s.long && !Paging(s) && s.pc + 30 <= 0x4000_0000
    ensures Fetchable(m, EnableLong(), s) && ExecList(m, EnableLong(), s) == Some(t)
    ensures t == s.(rcx := EFER, rdx := s.efer / TWO32, rax := OrWord(s.efer % TWO32, 0x100), efer := WithLme(s.efer),
                    pc := s.pc + 14)
  {
    hide Fetchable, ExecList, BitAt, Flat, OrWord;
    var s1 := s.(rcx := EFER, pc := s.pc + 5);
    var s2 := s1.(rdx := s.efer / TWO32, rax := s.efer % TWO32, pc := s.pc + 7);
    var s3 := s2.(rax := OrWord(s.efer % TWO32, 0x100), pc := s.pc + 12);
    t := s3.(efer := WithLme(s.efer), pc := s.pc + 14);
    UnpagedIsFlat(m, s);
    UnpagedIsFlat(m, s1);
    UnpagedIsFlat(m, s2);
    UnpagedIsFlat(m, s3);
    ListEnd(m, t);
    ListStep(m, Wrmsr, [], s3);
    ListStep(m, OrEax(0x100), [Wrmsr] + [], s2);
    ListStep(m, Rdmsr, [OrEax(0x100)] + ([Wrmsr] + []), s1);
    ListStep(m, MovEcx(EFER), [Rdmsr] + ([OrEax(0x100)] + ([Wrmsr] + [])), s);
  }

  function EnablePaging(): seq<BootIns> {
    [ReadCr0] + ([OrEax(0x80000001)] + ([WriteCr0] + []))
  }

  lemma PagingEnabled(m: Ram, s: BootCpu) returns (t: BootCpu)
    requires !s.long && !Paging(s) && s.pc + 30 <= 0x4000_0000
    ensures Fetchable(m, EnablePaging(), s) && ExecList(m, EnablePaging(), s) == Some(t)
    ensures t == s.(rax := OrWord(s.cr0, 0x80000001), cr0 := OrWord(s.cr0, 0x80000001), pc := s.pc + 11)
  {
    hide Fetchable, ExecList, BitAt, Flat, OrWord;
    var s1 := s.(rax := s.cr0, pc := s.pc + 3);
    var s2 := s1.(rax := OrWord(s.cr0, 0x80000001), pc := s.pc + 8);
    t := s2.(cr0 := OrWord(s.cr0, 0x80000001), pc := s.pc + 11);
    UnpagedIsFlat(m, s);
    UnpagedIsFlat(m, s1);
    UnpagedIsFlat(m, s2);
    ListEnd(m, t);
    ListStep(m, WriteCr0, [], s2);
    ListStep(m, OrEax(0x80000001), [WriteCr0] + [], s1);
    ListStep(m, ReadCr0, [OrEax(0x80000001)] + ([WriteCr0] + []), s);
  }

  lemma TrampolineParts(pml4: nat, gdtr: nat, stub: nat)
    ensures Trampoline(pml4, gdtr, stub) ==
            LoadGdt(gdtr) + (LoadTables(pml4) + (EnableLong() + (EnablePaging() + [FarJmp(stub, 8)])))
    ensures |LoadGdt(gdtr)| == 4 && |LoadTables(pml4)| == 5 && |EnableLong()| == 4 && |EnablePaging()| == 3
  {
    assert LoadGdt(gdtr) == [Cli, MovEsp(0x90000), MovEax(gdtr), Lgdt];
    assert LoadTables(pml4) == [ReadCr4, OrEax8(0x20), WriteCr4, MovEax(pml4), WriteCr3];
    assert EnableLong() == [MovEcx(EFER), Rdmsr, OrEax(0x100), Wrmsr];
    assert EnablePaging() == [ReadCr0, OrEax(0x80000001), WriteCr0];
  }

  lemma PartSizes(pml4: nat, gdtr: nat)
    ensures |CodeAll(LoadGdt(gdtr))| == 14 && |CodeAll(LoadTables(pml4))| == 17
    ensures |CodeAll(EnableLong())| == 14 && |CodeAll(EnablePaging())| == 11
  {
    hide CodeAll;
    SizeOf4(LoadGdt(gdtr), Cli, MovEsp(0x90000), MovEax(gdtr), Lgdt);
    assert LoadTables(pml4) == [ReadCr4, OrEax8(0x20), WriteCr4, MovEax(pml4)] + [WriteCr3];
    SizeOf4([ReadCr4, OrEax8(0x20), WriteCr4, MovEax(pml4)], ReadCr4, OrEax8(0x20), WriteCr4, MovEax(pml4));
    CodeConcat([ReadCr4, OrEax8(0x20), WriteCr4, MovEax(pml4)], [WriteCr3]);
    CodeOne(WriteCr3);
    SizeOf4(EnableLong(), MovEcx(EFER), Rdmsr, OrEax(0x100), Wrmsr);
    SizeOf3(EnablePaging());
  }

  lemma CodeOne(i: BootIns)
    ensures CodeAll([i]) == Code(i)
  {
    hide Code;
    assert [i][1..] == [];
  }

  lemma PowersAt()
    ensures Pow2(3) == 8 && Pow2(4) == 16 && Pow2(5) == 32 && Pow2(6) == 64 && Pow2(7) == 128 && Pow2(8) == 256
    ensures Pow2(31) == TWO31
  {
    Pow2At();
    assert Pow2(4) == 16;
    assert Pow2(6) == 64;
    assert Pow2(8) == 256;
    assert Pow2(32) == 2 * Pow2(31);
  }

  /** The three mode bits the trampoline sets. */
  lemma ModeBits(cr0: nat, cr4: nat, efer: nat)
    requires efer < TWO64
    ensures BitAt(OrWord(cr0, 0x80000001), 31) && BitAt(OrWord(cr4, 0x20), 5) && BitAt(WithLme(efer), 8)
  {
    hide OrWord, Pow2;
    PowersAt();
    OrSetsBit(cr0, 0x80000001, 31);
    OrSetsBit(cr4, 0x20, 5);
    var r := OrWord(efer % TWO32, 0x100);
    OrSetsBit(efer % TWO32, 0x100, 8);
    LowBit(efer / TWO32, r);
  }

  lemma LowBit(hi: nat, r: nat)
    requires BitAt(r, 8)
    ensures BitAt(hi * TWO32 + r % TWO32, 8)
  {
    hide Pow2;
    PowersAt();
    var q, l := r / TWO32, r % TWO32;
    var k, m := l / 256, l % 256;
    DivAlgorithm(r, TWO32);
    DivAlgorithm(l, 256);
    DivModUnique(r, 256, q * 0x100_0000 + k, m);
    DivModUnique(hi * TWO32 + l, 256, hi * 0x100_0000 + k, m);
    SameParity(q, hi, k);
  }

  lemma SameParity(q: int, hi: int, k: int)
    ensures (q * 0x100_0000 + k) % 2 == (hi * 0x100_0000 + k) % 2
  {
    DivModUnique(q * 0x100_0000 + k, 2, q * 0x80_0000 + k / 2, k % 2);
    DivModUnique(hi * 0x100_0000 + k, 2, hi * 0x80_0000 + k / 2, k % 2);
  }

  lemma PagedIsFlat(m: Ram, s: BootCpu)
    requires LongActive(s) && TablesAt(m, s.cr3)
    ensures Flat(m, s)
  {
    hide TablesAt, Walk, BitAt;
    forall a: nat | a < 0x4000_0000
      ensures Translate(m, s, a) == Some(a)
    {
      PageTablesMap(m, s.cr3, a);
    }
  }

  /** The code and data descriptors of the table. */
  lemma GdtEntries(m: Ram, s: BootCpu, selector: nat)
    requires Flat(m, s) && s.gdtBase + GDT_SIZE <= 0x4000_0000 && s.gdtLimit == 39 &&
             BytesOf(m, s.gdtBase, GDT_SIZE) == Gdt()
    requires selector == 8 || selector == 0x10
    ensures DescriptorAt(m, s, selector) ==
            Some(if selector == 8 then Descriptor(0x9A, 0xA0) else Descriptor(0x92, 0xC0))
  {
    hide Flat, Fetch;
    FlatFetch(m, s, s.gdtBase + selector, 8);
    var all := BytesOf(m, s.gdtBase, GDT_SIZE);
    assert BytesOf(m, s.gdtBase + selector, 8) == all[selector..selector + 8];
    assert Gdt()[8..16] == Descriptor(0x9A, 0xA0) && Gdt()[16..24] == Descriptor(0x92, 0xC0);
  }

  lemma DescriptorBits()
    ensures Usable(Descriptor(0x9A, 0xA0), true) && Is64Bit(Descriptor(0x9A, 0xA0)) &&
            Usable(Descriptor(0x92, 0xC0), false)
  {
    hide Pow2;
    PowersAt();
  }

  /** The far jump enters 64-bit mode at the stub. */
  lemma LongJump(m: Ram, stub: nat, s: BootCpu)
    requires !s.long && LongActive(s) && TablesAt(m, s.cr3) && s.pc + 30 <= 0x4000_0000 && stub < TWO32
    requires s.gdtBase + GDT_SIZE <= 0x4000_0000 && s.gdtLimit == 39 && BytesOf(m, s.gdtBase, GDT_SIZE) == Gdt()
    ensures Fetchable(m, [FarJmp(stub, 8)], s)
    ensures ExecList(m, [FarJmp(stub, 8)], s) == Some(s.(cs := 8, pc := stub, long := true))
  {
    hide Fetchable, ExecList, Flat, BytesOf, BitAt, TablesAt, DescriptorAt, Usable, Is64Bit, Gdt;
    var t, next := s.(cs := 8, pc := stub, long := true), s.(pc := s.pc + 7);
    PagedIsFlat(m, s);
    PagedIsFlat(m, next);
    GdtEntries(m, next, 8);
    DescriptorBits();
    ListEnd(m, t);
    ListStep(m, FarJmp(stub, 8), [], s);
    assert [FarJmp(stub, 8)] + [] == [FarJmp(stub, 8)];
  }

  ghost predicate LongMode(m: Ram, s: BootCpu) {
    && s.long && LongActive(s) && TablesAt(m, s.cr3)
    && s.gdtBase + GDT_SIZE <= 0x4000_0000 && s.gdtLimit == 39 && BytesOf(m, s.gdtBase, GDT_SIZE) == Gdt()
  }

  lemma LongModeFlat(m: Ram, s: BootCpu)
    requires LongMode(m, s)
    ensures Flat(m, s) && s.long
  {
    hide TablesAt, LongActive, BytesOf, Flat;
    PagedIsFlat(m, s);
  }

  lemma LoadSelector(m: Ram, s: BootCpu)
    requires LongMode(m, s) && s.rax % 0x1_0000 == 0x10
    ensures DataSelector(m, s, s.rax % 0x1_0000)
  {
    hide TablesAt, LongActive, BytesOf, Flat, DescriptorAt, Usable, Is64Bit, Gdt;
    LongModeFlat(m, s);
    GdtEntries(m, s, 0x10);
    DescriptorBits();
  }

  function LoadSegments(): seq<BootIns> {
    [MovAx(0x10)] + ([MovDs] + ([MovEs] + ([MovSs] + [])))
  }

  lemma SegmentsLoaded(m: Ram, s: BootCpu) returns (t: BootCpu)
    requires LongMode(m, s) && s.pc + 30 <= 0x4000_0000
    ensures Fetchable(m, LoadSegments(), s) && ExecList(m, LoadSegments(), s) == Some(t)
    ensures t == s.(rax := s.rax / 0x1_0000 * 0x1_0000 + 0x10, ds := 0x10, es := 0x10, ss := 0x10, pc := s.pc + 10)
  {
    hide Fetchable, ExecList, BitAt, Flat, DataSelector, TablesAt, BytesOf, Gdt;
    var a := s.rax / 0x1_0000 * 0x1_0000 + 0x10;
    LowWord(s.rax / 0x1_0000, 0x10);
    var s1 := s.(rax := a, pc := s.pc + 4);
    var s2 := s1.(ds := 0x10, pc := s.pc + 6);
    var s3 := s2.(es := 0x10, pc := s.pc + 8);
    t := s3.(ss := 0x10, pc := s.pc + 10);
    LoadSelector(m, s1.(pc := s.pc + 6));
    LoadSelector(m, s2.(pc := s.pc + 8));
    LoadSelector(m, s3.(pc := s.pc + 10));
    LongModeFlat(m, s);
    LongModeFlat(m, s1);
    LongModeFlat(m, s2);
    LongModeFlat(m, s3);
    hide LongMode;
    ListEnd(m, t);
    ListStep(m, MovSs, [], s3);
    ListStep(m, MovEs, [MovSs] + [], s2);
    ListStep(m, MovDs, [MovEs] + ([MovSs] + []), s1);
    ListStep(m, MovAx(0x10), [MovDs] + ([MovEs] + ([MovSs] + [])), s);
  }

  function EnterPayload(kmain: nat): seq<BootIns> {
    [MovRsp(0x90000)] + ([MovRax(kmain)] + ([JmpRax] + []))
  }

  lemma PayloadEntered(m: Ram, kmain: nat, s: BootCpu) returns (t: BootCpu)
    requires LongMode(m, s) && s.pc + 30 <= 0x4000_0000 && kmain < TWO64
    ensures Fetchable(m, EnterPayload(kmain), s) && ExecList(m, EnterPayload(kmain), s) == Some(t)
    ensures t == s.(rax := kmain, rsp := 0x90000, pc := kmain)
  {
    hide Fetchable, ExecList, BitAt, Flat, TablesAt, BytesOf, Gdt;
    var s1 := s.(rsp := 0x90000, pc := s.pc + 10);
    var s2 := s1.(rax := kmain, pc := s.pc + 20);
    t := s2.(pc := kmain);
    LongModeFlat(m, s);
    LongModeFlat(m, s1);
    LongModeFlat(m, s2);
    hide LongMode;
    ListEnd(m, t);
    ListStep(m, JmpRax, [], s2);
    ListStep(m, MovRax(kmain), [JmpRax] + [], s1);
    ListStep(m, MovRsp(0x90000), [MovRax(kmain)] + ([JmpRax] + []), s);
  }

  lemma StubParts(kmain: nat)
    ensures Stub(kmain) == LoadSegments() + EnterPayload(kmain)
    ensures |LoadSegments()| == 4 && |EnterPayload(kmain)| == 3 && |CodeAll(LoadSegments())| == 10
  {
    assert LoadSegments() == [MovAx(0x10), MovDs, MovEs, MovSs];
    assert EnterPayload(kmain) == [MovRsp(0x90000), MovRax(kmain), JmpRax];
    SizeOf4(LoadSegments(), MovAx(0x10), MovDs, MovEs, MovSs);
  }

  /** The stub loads the data segments and the stack, and jumps to the payload. */
  lemma StubRuns(m: Ram, kmain: nat, s: BootCpu) returns (t: BootCpu)
    requires LongMode(m, s) && s.pc + 40 <= 0x4000_0000 && kmain < TWO64
    requires BytesOf(m, s.pc, |CodeAll(Stub(kmain))|) == CodeAll(Stub(kmain))
    ensures BootRun(m, s, 7) == Some(t)
    ensures t == s.(rax := kmain, ds := 0x10, es := 0x10, ss := 0x10, rsp := 0x90000, pc := kmain)
  {
    hide BootRun, Fetchable, ExecList, BitAt, TablesAt, BytesOf, Gdt, CodeAll, Stub, LoadSegments, EnterPayload;
    StubParts(kmain);
    var s1 := SegmentsLoaded(m, s);
    RunPart(m, LoadSegments(), EnterPayload(kmain), s, s1);
    t := PayloadEntered(m, kmain, s1);
    RunList(m, EnterPayload(kmain), s1);
    BootRunAdd(m, s, 4, 3);
  }

  lemma LowWord(hi: int, lo: int)
    requires 0 <= lo < 0x1_0000
    ensures (hi * 0x1_0000 + lo) % 0x1_0000 == lo
  {
    DivModUnique(hi * 0x1_0000 + lo, 0x1_0000, hi, lo);
  }

  /** Number of instructions from the entry point to the payload. */
  const BOOT_STEPS: nat := 24

  lemma TrampolineRuns(m: Ram, pml4: nat, gdtr: nat, gdt: nat, stub: nat, s: BootCpu) returns (t: BootCpu)
    requires HandedOff(s, s.pc) && s.pc + 90 <= 0x4000_0000 && TablesAt(m, pml4)
    requires gdtr + 6 <= 0x4000_0000 && gdt + GDT_SIZE <= 0x4000_0000 && stub < TWO32
    requires BytesOf(m, s.pc, |CodeAll(Trampoline(pml4, gdtr, stub))|) == CodeAll(Trampoline(pml4, gdtr, stub))
    requires BytesOf(m, gdtr, 6) == Pack(Gdtr(gdt)) && BytesOf(m, gdt, GDT_SIZE) == Gdt()
    ensures BootRun(m, s, 17) == Some(t)
    ensures LongMode(m, t) && t.pc == stub && t.cs == 8 && t.cr3 == pml4
  {
    hide BootRun, ExecList, Fetchable, BitAt, TablesAt, BytesOf, Gdt, Pack, OrWord, WithLme, CodeAll, Trampoline,
         LoadGdt, LoadTables, EnableLong, EnablePaging;
    assert pml4 < TWO32 by { TablesAligned(m, pml4); }
    TrampolineParts(pml4, gdtr, stub);
    PartSizes(pml4, gdtr);
    var l0, l1, l2, l3, l4 := LoadGdt(gdtr), LoadTables(pml4), EnableLong(), EnablePaging(), [FarJmp(stub, 8)];
    var s1 := GdtLoaded(m, gdtr, gdt, s);
    RunPart(m, l0, l1 + (l2 + (l3 + l4)), s, s1);
    var s2 := TablesLoaded(m, pml4, s1);
    RunPart(m, l1, l2 + (l3 + l4), s1, s2);
    var s3 := LongEnabled(m, s2);
    RunPart(m, l2, l3 + l4, s2, s3);
    var s4 := PagingEnabled(m, s3);
    RunPart(m, l3, l4, s3, s4);
    ModeBits(s.cr0, s.cr4, s.efer);
    LongJump(m, stub, s4);
    RunList(m, l4, s4);
    t := s4.(cs := 8, pc := stub, long := true);
    BootRunAdd(m, s, 4, 5);
    BootRunAdd(m, s, 9, 4);
    BootRunAdd(m, s, 13, 3);
    BootRunAdd(m, s, 16, 1);
  }

  /** The addresses the plan gives are usable and the boot code points at them. */
  lemma BootInPlace(m: Ram, p: Regions, user: seq<Byte>, data: seq<Byte>, s: BootCpu) returns (t: BootCpu)
    requires InPlace(m, p, user, data) && Ordered(p) && m.base + p.user + 16 <= 0x4000_0000
    requires (m.base + p.pml4) % 4096 == 0 && p.pdpt == p.pml4 + 4096 && p.pd == p.pml4 + 8192
    requires HandedOff(s, m.base + MULTIBOOT_SIZE)
    ensures BootRun(m, s, BOOT_STEPS) == Some(t) && LongMode(m, t)
    ensures t.rsp == 0x90000 && t.cs == 8 && t.ds == t.es == t.ss == 0x10 && t.pc == m.base + p.user
  {
    hide BootRun, BytesOf, Gdt, Pack, CodeAll, Code, Trampoline, Stub, PatchTables, BitAt;
    var start := m.base;
    BootCodeSizes(start + p.pml4, start + p.gdtr, start + p.stub, start + p.user);
    assert TablesAt(m, start + p.pml4);
    assert BytesOf(m, start + p.stub, STUB_SIZE) == CodeAll(Stub(start + p.user));
    assert BytesOf(m, start + MULTIBOOT_SIZE, TRAMPOLINE_SIZE) ==
           CodeAll(Trampoline(start + p.pml4, start + p.gdtr, start + p.stub));
    hide TablesAt, InPlace, LongActive;
    var mid := TrampolineRuns(m, start + p.pml4, start + p.gdtr, start + p.gdt, start + p.stub, s);
    t := StubRuns(m, start + p.user, mid);
    BootRunAdd(m, s, 17, 7);
    SameMode(m, mid, t);
  }

  /** Long mode depends on the control registers and the descriptor table only. */
  lemma SameMode(m: Ram, s: BootCpu, t: BootCpu)
    requires LongMode(m, s) && t.long == s.long && t.cr0 == s.cr0 && t.cr3 == s.cr3 && t.cr4 == s.cr4 &&
             t.efer == s.efer
    requires t.gdtBase == s.gdtBase && t.gdtLimit == s.gdtLimit
    ensures LongMode(m, t)
  {
  }

  lemma AlignedBelow(a: nat)
    requires a % 16 == 0 && a < 0x4000_0000
    ensures a + 16 <= 0x4000_0000
  {
  }

  /** Booting: for every payload and every load address that puts its first byte below 1 GiB, execution of the
      loaded file from the Multiboot hand-off reaches that byte in 64-bit mode, with the stack at 0x90000, the
      identity map below 1 GiB in force and nothing mapped above it, and code and data in place. */
  lemma BootReachesPayload(user: seq<Byte>, data: seq<Byte>, loadAddr: nat, s: BootCpu) returns (t: BootCpu)
    requires CodeStart(loadAddr) + Plan(loadAddr).user < 0x4000_0000
    requires HandedOff(s, CodeStart(loadAddr) + MULTIBOOT_SIZE)
    ensures var m := Loaded(user, data, loadAddr);
            && BootRun(m, s, BOOT_STEPS) == Some(t)
            && t.long && LongActive(t) && t.rsp == 0x90000 && t.cs == 8 && t.ds == t.es == t.ss == 0x10
            && (forall va: nat | va < 0x1_0000_0000_0000 ::
                  Translate(m, t, va) == if va < 0x4000_0000 then Some(va) else None)
            && t.pc == CodeStart(loadAddr) + Plan(loadAddr).user
            && BytesOf(m, t.pc, |user|) == user && BytesOf(m, t.pc + |user|, |data|) == data
  {
    hide BootRun, BytesOf, Plan, Blob, BitAt, Walk, TablesAt, PageTables, TrampolineCode, StubCode, Gdt, GdtrBytes,
      HandedOff;
    var m, p := Loaded(user, data, loadAddr), Plan(loadAddr);
    PlanOrdered(loadAddr);
    AlignedBelow(m.base + p.user);
    RegionsInMemory(user, data, loadAddr);
    t := BootInPlace(m, p, user, data, s);
    forall va: nat | va < 0x1_0000_0000_0000
      ensures Translate(m, t, va) == if va < 0x4000_0000 then Some(va) else None
    {
      PageTablesMap(m, t.cr3, va);
    }
  }

  /** From 1 GiB on the payload has no first byte to run: with paging on over the kernel's own tables its address
      is not mapped. */
  lemma PayloadUnmapped(user: seq<Byte>, data: seq<Byte>, loadAddr: nat, t: BootCpu)
    requires 0x4000_0000 <= CodeStart(loadAddr) + Plan(loadAddr).user < TWO32
    requires Paging(t) && t.cr3 == CodeStart(loadAddr) + Plan(loadAddr).pml4
    ensures Translate(Loaded(user, data, loadAddr), t, CodeStart(loadAddr) + Plan(loadAddr).user) == None
  {
    hide BytesOf, Plan, Blob, BitAt, Walk;
    var m, p := Loaded(user, data, loadAddr), Plan(loadAddr);
    PlanOrdered(loadAddr);
    RegionsInMemory(user, data, loadAddr);
    assert TablesAt(m, m.base + p.pml4);
    PageTablesMap(m, t.cr3, m.base + p.user);
  }

  /** The header GRUB scans for: inside the first 8 KiB, aligned, its words summing to zero mod 2^32. */
  lemma MultibootFound(user: seq<Byte>, data: seq<Byte>, loadAddr: nat)
    requires Kernel(user, data, loadAddr).Some?
    ensures var f := Kernel(user, data, loadAddr).value;
            && HEADER_TOTAL % 4 == 0 && HEADER_TOTAL + MULTIBOOT_SIZE <= 8192
            && Read(f, HEADER_TOTAL, 4) == MULTIBOOT_MAGIC
            && (Read(f, HEADER_TOTAL, 4) + Read(f, HEADER_TOTAL + 4, 4) + Read(f, HEADER_TOTAL + 8, 4)) % TWO32 == 0
  {
    hide BootTail, Plan, Read, PackFirst, FieldOff, TrampolineCode, PageTables, Packable, Fill;
    var f, p, start := Kernel(user, data, loadAddr).value, Plan(loadAddr), CodeStart(loadAddr);
    PlanOrdered(loadAddr);
    var fs := Multiboot();
    var head := Ident(1) + Pack(Ehdr32(loadAddr + HEADER_TOTAL + MULTIBOOT_SIZE))
                + Pack(Phdr32(loadAddr, HEADER_TOTAL + |Blob(user, data, loadAddr)|));
    Ehdr32Offsets(loadAddr + HEADER_TOTAL + MULTIBOOT_SIZE);
    Phdr32Offsets(loadAddr, HEADER_TOTAL + |Blob(user, data, loadAddr)|);
    var rest := Blob(user, data, loadAddr)[MULTIBOOT_SIZE..];
    FieldZero(fs);
    FieldStep(fs, 0);
    FieldStep(fs, 1);
    FieldStep(fs, 2);
    assert f == head + Pack(fs) + rest by { BlobStarts(user, data, loadAddr); }
    assert Packable(fs) by { MultibootFits(); }
    ReadField(head, fs, rest, 0);
    ReadField(head, fs, rest, 1);
    ReadField(head, fs, rest, 2);
  }

  lemma MultibootFits()
    ensures Packable(Multiboot())
  {
    Pow256At();
  }

  lemma BlobStarts(user: seq<Byte>, data: seq<Byte>, loadAddr: nat)
    ensures Blob(user, data, loadAddr) == Pack(Multiboot()) + Blob(user, data, loadAddr)[MULTIBOOT_SIZE..]
  {
    hide BootTail, Plan, TrampolineCode, PageTables, Fill, Pack, Multiboot;
    var p, start := Plan(loadAddr), CodeStart(loadAddr);
    PlanOrdered(loadAddr);
    HeadRegions(p, start);
    var b := Blob(user, data, loadAddr);
    assert b[..MULTIBOOT_SIZE] == BootHead(p, start)[..MULTIBOOT_SIZE] == MultibootHeader();
  }
}
