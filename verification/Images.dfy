/** The executable files of ACLM/elfwriter.py, and what an ELF loader makes of them. */
module Images {
  import opened Wrappers
  import opened Words

  const PAGE: nat := 0x1000
  const LOAD_VADDR: nat := 0x400000
  const EHDR_SIZE: nat := 64
  const PHDR_SIZE: nat := 56
  const EHDR32: nat := 52
  const PHDR32: nat := 32

  // ---- struct.pack ----

  /** One little-endian field. */
  datatype Fld = Fld(size: nat, value: nat)

  /** struct.pack raises when a value does not fit its field. */
  predicate Packable(fs: seq<Fld>) {
    forall k | 0 <= k < |fs| :: fs[k].value < Pow256(fs[k].size)
  }

  /** Offset of field k. */
  function FieldOff(fs: seq<Fld>, k: nat): nat
    requires k <= |fs|
  {
    if k == 0 then 0 else FieldOff(fs, k - 1) + fs[k - 1].size
  }

  function PackFirst(fs: seq<Fld>, k: nat): (s: seq<Byte>)
    requires k <= |fs|
    ensures |s| == FieldOff(fs, k)
  {
    if k == 0 then [] else PackFirst(fs, k - 1) + LE(fs[k - 1].value, fs[k - 1].size)
  }

  function Pack(fs: seq<Fld>): seq<Byte> {
    PackFirst(fs, |fs|)
  }

  /** A little-endian number in a file. */
  function Read(f: seq<Byte>, at: nat, n: nat): nat {
    if at + n <= |f| then FromLE(f[at..at + n]) else 0
  }

  lemma {:induction false} PackedField(fs: seq<Fld>, n: nat, k: nat)
    requires k < n <= |fs|
    ensures FieldOff(fs, k + 1) <= FieldOff(fs, n)
    ensures PackFirst(fs, n)[FieldOff(fs, k)..FieldOff(fs, k + 1)] == LE(fs[k].value, fs[k].size)
    decreases n
  {
    if k < n - 1 {
      PackedField(fs, n - 1, k);
    }
  }

  lemma FieldStep(fs: seq<Fld>, k: nat)
    requires k < |fs|
    ensures FieldOff(fs, k + 1) == FieldOff(fs, k) + fs[k].size
  {
  }

  lemma FieldZero(fs: seq<Fld>)
    ensures FieldOff(fs, 0) == 0
  {
  }

  lemma SliceMiddle(pre: seq<Byte>, mid: seq<Byte>, post: seq<Byte>, a: nat, b: nat)
    requires a <= b <= |mid|
    ensures (pre + mid + post)[|pre| + a..|pre| + b] == mid[a..b]
  {
  }

  lemma ReadPart(pre: seq<Byte>, mid: seq<Byte>, post: seq<Byte>, at: nat, n: nat, v: nat)
    requires at + n <= |mid| && mid[at..at + n] == LE(v, n) && v < Pow256(n)
    ensures Read(pre + mid + post, |pre| + at, n) == v
  {
    hide LE, FromLE, Pow256;
    SliceMiddle(pre, mid, post, at, at + n);
    LERoundTrip(v, n);
    SmallMod(v, Pow256(n));
  }

  /** Reading a packed field back. */
  lemma ReadField(pre: seq<Byte>, fs: seq<Fld>, post: seq<Byte>, k: nat)
    requires k < |fs| && Packable(fs)
    ensures Read(pre + Pack(fs) + post, |pre| + FieldOff(fs, k), fs[k].size) == fs[k].value
  {
    hide PackFirst, FieldOff, Read, LE, Pow256;
    FieldStep(fs, k);
    PackedField(fs, |fs|, k);
    assert |Pack(fs)| == FieldOff(fs, |fs|);
    hide Pack;
    ReadPart(pre, Pack(fs), post, FieldOff(fs, k), fs[k].size, fs[k].value);
  }

  // ---- headers ----

  const IDENT_REST: seq<Byte> := [1, 1, 0, 0, 0, 0, 0, 0, 0, 0, 0]

  /** e_ident: the magic, the class (2 for 64-bit, 1 for 32-bit), little-endian, version 1. */
  function Ident(elfClass: Byte): (s: seq<Byte>)
    ensures |s| == 16
  {
    [0x7F, 0x45, 0x4C, 0x46, elfClass] + IDENT_REST
  }

  /** Where the section headers are, and how many; all zero when there are none. */
  datatype Sections = Sections(offset: nat, entrySize: nat, count: nat, names: nat)

  const NO_SECTIONS: Sections := Sections(0, 0, 0, 0)

  function Ehdr64(entry: nat, phnum: nat, sh: Sections): seq<Fld> {
    [Fld(2, 2), Fld(2, 0x3E), Fld(4, 1), Fld(8, entry), Fld(8, EHDR_SIZE), Fld(8, sh.offset), Fld(4, 0),
     Fld(2, EHDR_SIZE), Fld(2, PHDR_SIZE), Fld(2, phnum), Fld(2, sh.entrySize), Fld(2, sh.count), Fld(2, sh.names)]
  }

  function Phdr64(flags: nat, off: nat, vaddr: nat, size: nat): seq<Fld> {
    [Fld(4, 1), Fld(4, flags), Fld(8, off), Fld(8, vaddr), Fld(8, vaddr), Fld(8, size), Fld(8, size), Fld(8, PAGE)]
  }

  function Ehdr32(entry: nat): seq<Fld> {
    [Fld(2, 2), Fld(2, 3), Fld(4, 1), Fld(4, entry), Fld(4, EHDR32), Fld(4, 0), Fld(4, 0),
     Fld(2, EHDR32), Fld(2, PHDR32), Fld(2, 1), Fld(2, 0), Fld(2, 0), Fld(2, 0)]
  }

  function Phdr32(vaddr: nat, size: nat): seq<Fld> {
    [Fld(4, 1), Fld(4, 0), Fld(4, vaddr), Fld(4, vaddr), Fld(4, size), Fld(4, size), Fld(4, 7), Fld(4, PAGE)]
  }

  lemma Ehdr64Offsets(entry: nat, phnum: nat, sh: Sections)
    ensures var fs := Ehdr64(entry, phnum, sh);
            FieldOff(fs, 3) == 8 && FieldOff(fs, 4) == 16 && FieldOff(fs, 8) == 38 && FieldOff(fs, 9) == 40 &&
              FieldOff(fs, 13) == 48
  {
    hide FieldOff;
    var fs := Ehdr64(entry, phnum, sh);
    FieldZero(fs);
    FieldStep(fs, 0);
    FieldStep(fs, 1);
    FieldStep(fs, 2);
    FieldStep(fs, 3);
    FieldStep(fs, 4);
    FieldStep(fs, 5);
    FieldStep(fs, 6);
    FieldStep(fs, 7);
    FieldStep(fs, 8);
    FieldStep(fs, 9);
    FieldStep(fs, 10);
    FieldStep(fs, 11);
    FieldStep(fs, 12);
  }

  lemma Phdr64Offsets(flags: nat, off: nat, vaddr: nat, size: nat)
    ensures var fs := Phdr64(flags, off, vaddr, size);
            FieldOff(fs, 0) == 0 && FieldOff(fs, 2) == 8 && FieldOff(fs, 3) == 16 && FieldOff(fs, 5) == 32 &&
              FieldOff(fs, 8) == 56
  {
    hide FieldOff;
    var fs := Phdr64(flags, off, vaddr, size);
    FieldZero(fs);
    FieldStep(fs, 0);
    FieldStep(fs, 1);
    FieldStep(fs, 2);
    FieldStep(fs, 3);
    FieldStep(fs, 4);
    FieldStep(fs, 5);
    FieldStep(fs, 6);
    FieldStep(fs, 7);
  }

  lemma Ehdr32Offsets(entry: nat)
    ensures var fs := Ehdr32(entry);
            FieldOff(fs, 3) == 8 && FieldOff(fs, 4) == 12 && FieldOff(fs, 8) == 26 && FieldOff(fs, 9) == 28 &&
              FieldOff(fs, 13) == 36
  {
    hide FieldOff;
    var fs := Ehdr32(entry);
    FieldZero(fs);
    FieldStep(fs, 0);
    FieldStep(fs, 1);
    FieldStep(fs, 2);
    FieldStep(fs, 3);
    FieldStep(fs, 4);
    FieldStep(fs, 5);
    FieldStep(fs, 6);
    FieldStep(fs, 7);
    FieldStep(fs, 8);
    FieldStep(fs, 9);
    FieldStep(fs, 10);
    FieldStep(fs, 11);
    FieldStep(fs, 12);
  }

  lemma Phdr32Offsets(vaddr: nat, size: nat)
    ensures var fs := Phdr32(vaddr, size);
            FieldOff(fs, 0) == 0 && FieldOff(fs, 1) == 4 && FieldOff(fs, 2) == 8 && FieldOff(fs, 4) == 16 &&
              FieldOff(fs, 8) == 32
  {
    hide FieldOff;
    var fs := Phdr32(vaddr, size);
    FieldZero(fs);
    FieldStep(fs, 0);
    FieldStep(fs, 1);
    FieldStep(fs, 2);
    FieldStep(fs, 3);
    FieldStep(fs, 4);
    FieldStep(fs, 5);
    FieldStep(fs, 6);
    FieldStep(fs, 7);
  }

  // ---- the writers ----

  function AlignUp(n: nat, a: nat): nat
    requires a > 0
  {
    (n + a - 1) / a * a
  }

  lemma AlignUpIs(n: nat, a: nat)
    requires a > 0
    ensures n <= AlignUp(n, a) < n + a && AlignUp(n, a) % a == 0
    ensures AlignUp(n, a) == n <==> n % a == 0
  {
    var x, k := n + a - 1, n / a;
    DivAlgorithm(x, a);
    DivAlgorithm(n, a);
    DivModUnique(x / a * a, a, x / a, 0);
    if n % a == 0 {
      DivModUnique(x, a, k, a - 1);
    }
  }

  function Zeros(n: nat): (s: seq<Byte>)
    ensures |s| == n
  {
    Fill(n, 0)
  }

  function Fill(n: nat, b: Byte): (s: seq<Byte>)
    ensures |s| == n
  {
    seq<Byte>(n, i requires 0 <= i < n => b)
  }

  const PLAIN_HEADER: nat := EHDR_SIZE + PHDR_SIZE

  /** One segment with headers, code and data, then bytes that are not loaded. None is struct.error. */
  function SingleExe(code: seq<Byte>, data: seq<Byte>, entry: nat, sh: Sections, rest: seq<Byte>): Option<seq<Byte>> {
    var size := PLAIN_HEADER + |code| + |data|;
    var eh, ph := Ehdr64(LOAD_VADDR + PLAIN_HEADER + entry, 1, sh), Phdr64(7, 0, LOAD_VADDR, size);
    if Packable(eh) && Packable(ph) then Some(Ident(2) + Pack(eh) + Pack(ph) + code + data + rest) else None
  }

  /** `build_elf64_exe`. */
  function PlainExe(code: seq<Byte>, data: seq<Byte>, entry: nat): Option<seq<Byte>> {
    SingleExe(code, data, entry, NO_SECTIONS, [])
  }

  /** The debug sections and their headers; what they say is not modelled. */
  datatype DebugInfo = DebugInfo(shoff: nat, bytes: seq<Byte>)

  /** `build_elf64_with_symtab`, down to the debug sections. */
  function DebugExe(code: seq<Byte>, data: seq<Byte>, entry: nat, info: DebugInfo): Option<seq<Byte>> {
    SingleExe(code, data, entry, Sections(info.shoff, 64, 5, 4), info.bytes)
  }

  /** `wx_code_data_file_offsets`. */
  function WxOffsets(codeLen: nat): (nat, nat) {
    var code := AlignUp(EHDR_SIZE + 2 * PHDR_SIZE, PAGE);
    (code, AlignUp(code + codeLen, PAGE))
  }

  /** Bytes between the end of the code and the data. */
  function WxPad(codeLen: nat): int {
    WxOffsets(codeLen).1 - WxOffsets(codeLen).0 - codeLen
  }

  lemma WxLayout(codeLen: nat)
    ensures WxOffsets(codeLen).0 == 4096
    ensures 0 <= WxPad(codeLen) < 4096
    ensures WxPad(codeLen) == 0 <==> codeLen % 4096 == 0
  {
    AlignUpIs(4096 + codeLen, 4096);
    assert (4096 + codeLen) % 4096 == codeLen % 4096;
  }

  /** `build_elf64_exe_wx`: a read-execute segment for the code and a read-write one for the data. */
  function WxExe(code: seq<Byte>, data: seq<Byte>, entry: nat): Option<seq<Byte>> {
    var (codeOff, dataOff) := WxOffsets(|code|);
    var eh := Ehdr64(LOAD_VADDR + codeOff + entry, 2, NO_SECTIONS);
    var ph0, ph1 := Phdr64(5, codeOff, LOAD_VADDR + codeOff, |code|), Phdr64(6, dataOff, LOAD_VADDR + dataOff, |data|);
    if !Packable(eh) || !Packable(ph0) || !Packable(ph1) then None
    else
      var head := Ident(2) + Pack(eh) + Pack(ph0) + Pack(ph1);
      WxLayout(|code|);
      WxHeadSize(LOAD_VADDR + codeOff + entry, codeOff, |code|, dataOff, |data|);
      Some(head + Zeros(codeOff - |head|) + code + Zeros(dataOff - codeOff - |code|) + data)
  }

  lemma WxHeadSize(entry: nat, codeOff: nat, codeLen: nat, dataOff: nat, dataLen: nat)
    ensures |Ident(2) + Pack(Ehdr64(entry, 2, NO_SECTIONS)) + Pack(Phdr64(5, codeOff, LOAD_VADDR + codeOff, codeLen))
             + Pack(Phdr64(6, dataOff, LOAD_VADDR + dataOff, dataLen))| == 176
  {
    Ehdr64Offsets(entry, 2, NO_SECTIONS);
    Phdr64Offsets(5, codeOff, LOAD_VADDR + codeOff, codeLen);
    Phdr64Offsets(6, dataOff, LOAD_VADDR + dataOff, dataLen);
  }

  /** The padding loops: append `b` while the file is shorter than `target`. */
  method PadTo(blob: seq<Byte>, target: nat, b: Byte) returns (r: seq<Byte>)
    ensures r == blob + Fill(if target > |blob| then target - |blob| else 0, b)
  {
    r := blob;
    while |r| < target
      invariant |r| >= |blob| && r == blob + Fill(|r| - |blob|, b)
      invariant |r| <= target || r == blob
    {
      r := r + [b];
    }
  }

  /** The same bytes, built by appending zeros until the offset is reached. */
  method BuildWxExe(code: seq<Byte>, data: seq<Byte>, entry: nat) returns (r: Option<seq<Byte>>)
    ensures r == WxExe(code, data, entry)
  {
    hide AlignUp, PackFirst, FieldOff, Packable;
    var (codeOff, dataOff) := WxOffsets(|code|);
    var eh := Ehdr64(LOAD_VADDR + codeOff + entry, 2, NO_SECTIONS);
    var ph0, ph1 := Phdr64(5, codeOff, LOAD_VADDR + codeOff, |code|), Phdr64(6, dataOff, LOAD_VADDR + dataOff, |data|);
    if !Packable(eh) || !Packable(ph0) || !Packable(ph1) {
      return None;
    }
    var blob := Ident(2) + Pack(eh) + Pack(ph0) + Pack(ph1);
    WxLayout(|code|);
    WxHeadSize(LOAD_VADDR + codeOff + entry, codeOff, |code|, dataOff, |data|);
    blob := PadTo(blob, codeOff, 0);
    blob := blob + code;
    blob := PadTo(blob, dataOff, 0);
    return Some(blob + data);
  }

  /** `build_elf32_multiboot`: one segment at `loadAddr` holding headers and blob. */
  function Elf32(blob: seq<Byte>, entry: nat, loadAddr: nat): Option<seq<Byte>> {
    var size := EHDR32 + PHDR32 + |blob|;
    var eh, ph := Ehdr32(loadAddr + EHDR32 + PHDR32 + entry), Phdr32(loadAddr, size);
    if Packable(eh) && Packable(ph) then Some(Ident(1) + Pack(eh) + Pack(ph) + blob) else None
  }

  // ---- the loader, from the ELF specification ----

  /** A PT_LOAD program header. */
  datatype Segment = Segment(offset: nat, vaddr: nat, filesz: nat, flags: nat)

  function Segment64(f: seq<Byte>, at: nat): Segment {
    Segment(Read(f, at + 8, 8), Read(f, at + 16, 8), Read(f, at + 32, 8), Read(f, at + 4, 4))
  }

  function Segment32(f: seq<Byte>, at: nat): Segment {
    Segment(Read(f, at + 4, 4), Read(f, at + 8, 4), Read(f, at + 16, 4), Read(f, at + 24, 4))
  }

  /** Program header k, found through the ELF header's e_phoff and e_phentsize. */
  function ProgramHeader(f: seq<Byte>, k: nat): Segment {
    if Is64(f) then Segment64(f, Read(f, 32, 8) + k * Read(f, 54, 2))
    else Segment32(f, Read(f, 28, 4) + k * Read(f, 42, 2))
  }

  predicate Is64(f: seq<Byte>) {
    |f| > 4 && f[4] == 2
  }

  function HeaderCount(f: seq<Byte>): nat {
    if Is64(f) then Read(f, 56, 2) else Read(f, 44, 2)
  }

  /** e_entry. */
  function Entry(f: seq<Byte>): nat {
    if Is64(f) then Read(f, 24, 8) else Read(f, 24, 4)
  }

  predicate Covers(f: seq<Byte>, k: nat, a: nat) {
    var s := ProgramHeader(f, k);
    s.vaddr <= a < s.vaddr + s.filesz
  }

  /** The byte at address `a` once headers 0..n are loaded; later segments overlay earlier ones. */
  function LoadedByte(f: seq<Byte>, n: nat, a: nat): Option<Byte> {
    if n == 0 then None
    else if Covers(f, n - 1, a) then
      var s := ProgramHeader(f, n - 1);
      if s.offset + (a - s.vaddr) < |f| then Some(f[s.offset + (a - s.vaddr)]) else None
    else LoadedByte(f, n - 1, a)
  }

  /** Loading the file puts the bytes `s` at address `a`. */
  ghost predicate LoadsAt(f: seq<Byte>, s: seq<Byte>, a: nat) {
    forall i | 0 <= i < |s| :: LoadedByte(f, HeaderCount(f), a + i) == Some(s[i])
  }

  /** What the loader reads from the two ELF64 headers of a file. */
  lemma Header64Reads(entry: nat, phnum: nat, sh: Sections, rest: seq<Byte>)
    requires Packable(Ehdr64(entry, phnum, sh))
    ensures var f := Ident(2) + Pack(Ehdr64(entry, phnum, sh)) + rest;
            && |Ident(2) + Pack(Ehdr64(entry, phnum, sh))| == EHDR_SIZE
            && Is64(f) && Entry(f) == entry && HeaderCount(f) == phnum
            && Read(f, 32, 8) == EHDR_SIZE && Read(f, 54, 2) == PHDR_SIZE
  {
    hide Packable, Read, PackFirst, FieldOff;
    var fs := Ehdr64(entry, phnum, sh);
    Ehdr64Offsets(entry, phnum, sh);
    ReadField(Ident(2), fs, rest, 3);
    ReadField(Ident(2), fs, rest, 4);
    ReadField(Ident(2), fs, rest, 8);
    ReadField(Ident(2), fs, rest, 9);
  }

  lemma Segment64Reads(pre: seq<Byte>, flags: nat, off: nat, vaddr: nat, size: nat, rest: seq<Byte>)
    requires Packable(Phdr64(flags, off, vaddr, size))
    ensures |Pack(Phdr64(flags, off, vaddr, size))| == PHDR_SIZE
    ensures Segment64(pre + Pack(Phdr64(flags, off, vaddr, size)) + rest, |pre|) == Segment(off, vaddr, size, flags)
  {
    hide Packable, Read, PackFirst, FieldOff;
    var fs := Phdr64(flags, off, vaddr, size);
    Phdr64Offsets(flags, off, vaddr, size);
    assert FieldOff(fs, 1) == 4 by { Phdr64Second(fs); }
    ReadField(pre, fs, rest, 1);
    ReadField(pre, fs, rest, 2);
    ReadField(pre, fs, rest, 3);
    ReadField(pre, fs, rest, 5);
  }

  lemma Phdr64Second(fs: seq<Fld>)
    requires |fs| == 8 && fs[0].size == 4
    ensures FieldOff(fs, 1) == 4
  {
  }

  /** No segment after k covers the address. */
  predicate Exposed(f: seq<Byte>, n: nat, k: nat, a: nat) {
    forall j | k < j < n :: !Covers(f, j, a)
  }

  /** A segment's bytes are where its header says, unless a later segment covers them. */
  lemma {:induction false} SegmentLoads(f: seq<Byte>, n: nat, k: nat, at: nat, s: seq<Byte>, i: nat)
    requires k < n && i < |s|
    requires var h := ProgramHeader(f, k); h.vaddr <= at && at + |s| <= h.vaddr + h.filesz && h.offset + h.filesz <= |f|
    requires f[ProgramHeader(f, k).offset + (at - ProgramHeader(f, k).vaddr) + i] == s[i]
    requires Exposed(f, n, k, at + i)
    ensures LoadedByte(f, n, at + i) == Some(s[i])
    decreases n
  {
    hide ProgramHeader;
    if k < n - 1 {
      assert !Covers(f, n - 1, at + i);
      SegmentLoads(f, n - 1, k, at, s, i);
    }
  }

  /** A one-segment executable, loaded: code at its entry base, data right behind it. */
  lemma SingleLoads(code: seq<Byte>, data: seq<Byte>, entry: nat, sh: Sections, extra: seq<Byte>)
    requires SingleExe(code, data, entry, sh, extra).Some?
    ensures var f := SingleExe(code, data, entry, sh, extra).value;
            && Entry(f) == LOAD_VADDR + PLAIN_HEADER + entry
            && LoadsAt(f, code, LOAD_VADDR + PLAIN_HEADER)
            && LoadsAt(f, data, LOAD_VADDR + PLAIN_HEADER + |code|)
  {
    hide Packable, Read, PackFirst, FieldOff, Segment64;
    var f, size := SingleExe(code, data, entry, sh, extra).value, PLAIN_HEADER + |code| + |data|;
    var eh, ph := Ehdr64(LOAD_VADDR + PLAIN_HEADER + entry, 1, sh), Phdr64(7, 0, LOAD_VADDR, size);
    Header64Reads(LOAD_VADDR + PLAIN_HEADER + entry, 1, sh, Pack(ph) + code + data + extra);
    assert f == Ident(2) + Pack(eh) + (Pack(ph) + code + data + extra);
    Segment64Reads(Ident(2) + Pack(eh), 7, 0, LOAD_VADDR, size, code + data + extra);
    assert f == Ident(2) + Pack(eh) + Pack(ph) + (code + data + extra);
    assert ProgramHeader(f, 0) == Segment(0, LOAD_VADDR, size, 7);
    assert f[PLAIN_HEADER..] == code + data + extra;
    hide ProgramHeader, SingleExe;
    forall i | 0 <= i < |code| + |data|
      ensures LoadedByte(f, 1, LOAD_VADDR + PLAIN_HEADER + i) == Some((code + data)[i])
    {
      assert f[PLAIN_HEADER + i] == f[PLAIN_HEADER..][i];
      SegmentLoads(f, 1, 0, LOAD_VADDR + PLAIN_HEADER, code + data, i);
    }
  }

  /** The W^X executable, loaded: the data segment lies `WxPad` bytes behind the code. */
  lemma WxLoads(code: seq<Byte>, data: seq<Byte>, entry: nat)
    requires WxExe(code, data, entry).Some?
    ensures var f, base := WxExe(code, data, entry).value, LOAD_VADDR + WxOffsets(|code|).0;
            && Entry(f) == base + entry
            && LoadsAt(f, code, base) && LoadsAt(f, data, base + |code| + WxPad(|code|))
            && HeaderCount(f) == 2 && ProgramHeader(f, 0).flags == 5 && ProgramHeader(f, 1).flags == 6
  {
    hide Packable, Read, Pack, Segment64, AlignUp, Zeros, LoadsAt, LoadedByte, ProgramHeader, HeaderCount, Entry;
    WxLayout(|code|);
    var f := WxExe(code, data, entry).value;
    var (codeOff, dataOff) := WxOffsets(|code|);
    var v0, v1 := LOAD_VADDR + codeOff, LOAD_VADDR + dataOff;
    assert v1 == v0 + |code| + WxPad(|code|);
    var eh, p0, p1 := Pack(Ehdr64(v0 + entry, 2, NO_SECTIONS)), Pack(Phdr64(5, codeOff, v0, |code|)),
      Pack(Phdr64(6, dataOff, v1, |data|));
    var z0, z1 := Zeros(codeOff - 176), Zeros(dataOff - codeOff - |code|);
    WxHeadSize(v0 + entry, codeOff, |code|, dataOff, |data|);
    WxBytes(Ident(2) + eh + p0 + p1, z0, code, z1, data);
    WxHeaders(v0 + entry, codeOff, |code|, dataOff, |data|, z0 + code + z1 + data);
    assert f == Ident(2) + eh + p0 + p1 + (z0 + code + z1 + data);
    WxSegments(f, code, data, codeOff, dataOff);
  }

  lemma WxHeaders(entry: nat, codeOff: nat, codeLen: nat, dataOff: nat, dataLen: nat, rest: seq<Byte>)
    requires Packable(Ehdr64(entry, 2, NO_SECTIONS))
    requires Packable(Phdr64(5, codeOff, LOAD_VADDR + codeOff, codeLen))
    requires Packable(Phdr64(6, dataOff, LOAD_VADDR + dataOff, dataLen))
    ensures var f := Ident(2) + Pack(Ehdr64(entry, 2, NO_SECTIONS)) +
            Pack(Phdr64(5, codeOff, LOAD_VADDR + codeOff, codeLen))
                     + Pack(Phdr64(6, dataOff, LOAD_VADDR + dataOff, dataLen)) + rest;
            && Entry(f) == entry && HeaderCount(f) == 2
            && ProgramHeader(f, 0) == Segment(codeOff, LOAD_VADDR + codeOff, codeLen, 5)
            && ProgramHeader(f, 1) == Segment(dataOff, LOAD_VADDR + dataOff, dataLen, 6)
  {
    hide Packable, Read, Pack, Segment64, Ident;
    var eh := Pack(Ehdr64(entry, 2, NO_SECTIONS));
    var p0, p1 := Pack(Phdr64(5, codeOff, LOAD_VADDR + codeOff, codeLen)),
      Pack(Phdr64(6, dataOff, LOAD_VADDR + dataOff, dataLen));
    var f := Ident(2) + eh + p0 + p1 + rest;
    Header64Reads(entry, 2, NO_SECTIONS, p0 + p1 + rest);
    assert f == Ident(2) + eh + (p0 + p1 + rest);
    Segment64Reads(Ident(2) + eh, 5, codeOff, LOAD_VADDR + codeOff, codeLen, p1 + rest);
    assert f == Ident(2) + eh + p0 + (p1 + rest);
    Segment64Reads(Ident(2) + eh + p0, 6, dataOff, LOAD_VADDR + dataOff, dataLen, rest);
  }

  lemma WxBytes(head: seq<Byte>, z0: seq<Byte>, code: seq<Byte>, z1: seq<Byte>, data: seq<Byte>)
    ensures var f, c := head + (z0 + code + z1 + data), |head| + |z0|;
            f[c..c + |code|] == code && f[c + |code| + |z1|..] == data && |f| == c + |code| + |z1| + |data|
  {
  }

  lemma WxSegments(f: seq<Byte>, code: seq<Byte>, data: seq<Byte>, codeOff: nat, dataOff: nat)
    requires codeOff + |code| <= dataOff && |f| == dataOff + |data| && HeaderCount(f) == 2
    requires ProgramHeader(f, 0) == Segment(codeOff, LOAD_VADDR + codeOff, |code|, 5)
    requires ProgramHeader(f, 1) == Segment(dataOff, LOAD_VADDR + dataOff, |data|, 6)
    requires f[codeOff..codeOff + |code|] == code && f[dataOff..] == data
    ensures LoadsAt(f, code, LOAD_VADDR + codeOff) && LoadsAt(f, data, LOAD_VADDR + dataOff)
  {
    hide LoadedByte, ProgramHeader, HeaderCount;
    forall i | 0 <= i < |code|
      ensures LoadedByte(f, 2, LOAD_VADDR + codeOff + i) == Some(code[i])
    {
      assert f[codeOff + i] == f[codeOff..codeOff + |code|][i];
      SegmentLoads(f, 2, 0, LOAD_VADDR + codeOff, code, i);
    }
    forall i | 0 <= i < |data|
      ensures LoadedByte(f, 2, LOAD_VADDR + dataOff + i) == Some(data[i])
    {
      assert f[dataOff + i] == f[dataOff..][i];
      SegmentLoads(f, 2, 1, LOAD_VADDR + dataOff, data, i);
    }
  }

  /** The Multiboot kernel file, loaded: its blob follows the headers. */
  lemma Elf32Loads(blob: seq<Byte>, entry: nat, loadAddr: nat)
    requires Elf32(blob, entry, loadAddr).Some?
    ensures var f := Elf32(blob, entry, loadAddr).value;
            Entry(f) == loadAddr + EHDR32 + PHDR32 + entry && LoadsAt(f, blob, loadAddr + EHDR32 + PHDR32)
  {
    hide Packable, Read, PackFirst, FieldOff;
    var f, size := Elf32(blob, entry, loadAddr).value, EHDR32 + PHDR32 + |blob|;
    var eh, ph := Ehdr32(loadAddr + EHDR32 + PHDR32 + entry), Phdr32(loadAddr, size);
    Ehdr32Offsets(loadAddr + EHDR32 + PHDR32 + entry);
    Phdr32Offsets(loadAddr, size);
    assert f == Ident(1) + Pack(eh) + (Pack(ph) + blob);
    ReadField(Ident(1), eh, Pack(ph) + blob, 3);
    ReadField(Ident(1), eh, Pack(ph) + blob, 4);
    ReadField(Ident(1), eh, Pack(ph) + blob, 8);
    ReadField(Ident(1), eh, Pack(ph) + blob, 9);
    assert f == (Ident(1) + Pack(eh)) + Pack(ph) + blob;
    ReadField(Ident(1) + Pack(eh), ph, blob, 1);
    ReadField(Ident(1) + Pack(eh), ph, blob, 2);
    ReadField(Ident(1) + Pack(eh), ph, blob, 4);
    var s := ProgramHeader(f, 0);
    assert s.offset == 0 && s.vaddr == loadAddr && s.filesz == size;
    forall i | 0 <= i < |blob|
      ensures LoadedByte(f, 1, loadAddr + EHDR32 + PHDR32 + i) == Some(blob[i])
    {
      assert f[EHDR32 + PHDR32 + i] == blob[i];
    }
  }
}
