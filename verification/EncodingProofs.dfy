/** The instruction stream is self-delimiting and decodes back to what was encoded. */
module EncodingProofs {
  import opened Wrappers
  import opened Words
  import opened Regs
  import opened Isa
  import opened Encoding

  lemma S32RoundTrip(c: seq<Byte>, i: nat, v: int)
    requires FitsInt32(v) && i + 4 <= |c| && c[i..i + 4] == S32(v)
    ensures ReadS32(c, i) == Some(v)
  {
    LE4(v % TWO32);
  }

  lemma Split(a: seq<Byte>, b: seq<Byte>, rest: seq<Byte>)
    ensures (a + b + rest)[|a|..|a| + |b|] == b
  {
  }

  /** The mode bits: no displacement, or 32 bits of it. */
  function ModOf(m: MemRef): nat {
    if m.disp != 0 || m.base % 8 == 5 then 2 else 0
  }

  /** Where a memory operand's bytes stand. */
  predicate RefAt(c: seq<Byte>, i: nat, reg: Reg, m: MemRef)
    requires EncodableRef(m)
  {
    var n := 1 + |SibBytes(m)|;
    && i + n <= |c|
    && c[i] == ModRM(ModOf(m), reg % 8, if UsesSib(m) then 4 else m.base % 8)
    && c[i + 1..i + n] == SibBytes(m)
    && (ModOf(m) == 2 ==> i + n + 4 <= |c| && c[i + n..i + n + 4] == S32(m.disp))
  }

  /** The parts of a stretch that is a concatenation. */
  lemma PartsAt(c: seq<Byte>, i: nat, x: seq<Byte>, y: seq<Byte>, z: seq<Byte>)
    requires i + |x + y + z| <= |c| && c[i..i + |x + y + z|] == x + y + z
    ensures c[i..i + |x|] == x && c[i + |x|..i + |x| + |y|] == y
    ensures c[i + |x| + |y|..i + |x| + |y| + |z|] == z
  {
    var w, n, k := x + y + z, |x|, |x| + |y|;
    assert w[..n] == x && w[n..k] == y && w[k..] == z;
    assert c[i..i + n] == c[i..i + |w|][..n];
    assert c[i + n..i + k] == c[i..i + |w|][n..k];
    assert c[i + k..i + |w|] == c[i..i + |w|][k..];
  }

  lemma RefParts(c: seq<Byte>, i: nat, reg: Reg, m: MemRef)
    requires EncodableRef(m)
    requires i + |RefBytes(reg, m)| <= |c| && c[i..i + |RefBytes(reg, m)|] == RefBytes(reg, m)
    ensures RefAt(c, i, reg, m) && |RefBytes(reg, m)| == 1 + |SibBytes(m)| + (if ModOf(m) == 2 then 4 else 0)
  {
    hide ModRM, SibBytes, LE;
    var head := [ModRM(ModOf(m), reg % 8, if UsesSib(m) then 4 else m.base % 8)];
    PartsAt(c, i, head, SibBytes(m), if ModOf(m) == 2 then S32(m.disp) else []);
    assert c[i] == c[i..i + 1][0];
  }

  lemma DispReads(c: seq<Byte>, at: nat, m: MemRef)
    requires EncodableRef(m) && (ModOf(m) == 2 ==> at + 4 <= |c| && c[at..at + 4] == S32(m.disp))
    ensures ReadDisp(c, at, ModOf(m)) == Some((m.disp, if ModOf(m) == 2 then at + 4 else at))
  {
    hide ReadS32, LE;
    if ModOf(m) == 2 {
      S32RoundTrip(c, at, m.disp);
    }
  }

  lemma RegParts(r: Reg)
    ensures r % 8 + 8 * (r / 8) == r && r / 8 < 2
  {
  }

  /** A memory operand and its register field survive, whatever follows. */
  lemma RefRoundTrip(c: seq<Byte>, i: nat, p: Prefix, reg: Reg, m: MemRef)
    requires LegalRef(m)
    requires p.r == reg / 8 && p.x == RexX(m) && p.b == m.base / 8
    requires i + |RefBytes(reg, m)| <= |c| && c[i..i + |RefBytes(reg, m)|] == RefBytes(reg, m)
    ensures DecodeRM(c, i, p) == Some(Decoded(reg, MemOp(m), i + |RefBytes(reg, m)|))
  {
    hide ModRM, ReadDisp, RefBytes, LE;
    RefParts(c, i, reg, m);
    DispReads(c, i + 1 + |SibBytes(m)|, m);
    RegParts(reg);
    RegParts(m.base);
    if UsesSib(m) {
      assert c[i + 1] == c[i + 1..i + 2][0] == SibBytes(m)[0];
      if m.index.Idx? { RegParts(m.index.reg); }
    }
  }

  lemma LoadRoundTrip(w: Width, d: Reg, m: MemRef, rest: seq<Byte>)
    requires LegalRef(m)
    ensures Decode(LoadBytes(w, d, m) + rest) == Some((LoadI(w, d, m), |LoadBytes(w, d, m)|))
  {
    hide DecodeRM, RefBytes;
    var head := LoadHead(w, d, m);
    var c := LoadBytes(w, d, m) + rest;
    assert c == head + RefBytes(d, m) + rest;
    assert c[..|head|] == head;
    Split(head, RefBytes(d, m), rest);
    RefRoundTrip(c, |head|, ReadPrefix(c), d, m);
  }

  lemma StoreRoundTrip(w: Width, m: MemRef, s: Reg, rest: seq<Byte>)
    requires LegalRef(m)
    ensures Decode(StoreBytes(w, m, s) + rest) == Some((StoreI(w, m, s), |StoreBytes(w, m, s)|))
  {
    hide DecodeRM, RefBytes;
    var head := StoreHead(w, m, s);
    var c := StoreBytes(w, m, s) + rest;
    assert c == head + RefBytes(s, m) + rest;
    assert c[..|head|] == head;
    Split(head, RefBytes(s, m), rest);
    RefRoundTrip(c, |head|, ReadPrefix(c), s, m);
  }

  lemma MovImmRoundTrip(d: Reg, v: Word, wide: bool, rest: seq<Byte>)
    ensures Decode(MovImmBytes(d, v, wide) + rest) == Some((MovImm(d, v), |MovImmBytes(d, v, wide)|))
  {
    hide Decode, MovImmBytes;
    if wide || TWO32 <= v < TWO64 - TWO31 {
      MovImm64RoundTrip(d, v, wide, rest);
    } else if v < TWO32 {
      MovImm32RoundTrip(d, v, rest);
    } else {
      MovImmSignedRoundTrip(d, v, rest);
    }
  }

  lemma MovImm64RoundTrip(d: Reg, v: Word, wide: bool, rest: seq<Byte>)
    requires wide || TWO32 <= v < TWO64 - TWO31
    ensures Decode(MovImmBytes(d, v, wide) + rest) == Some((MovImm(d, v), |MovImmBytes(d, v, wide)|))
  {
    hide DecodeRM;
    var enc := MovImmBytes(d, v, wide);
    var c := enc + rest;
    assert forall k | 0 <= k < |enc| :: c[k] == enc[k];
    LE8(v);
    assert ReadPrefix(c) == Prefix(false, true, 1, 0, 0, d / 8, 1);
    assert c[2..10] == LE(v, 8);
  }

  lemma MovImm32RoundTrip(d: Reg, v: Word, rest: seq<Byte>)
    requires v < TWO32
    ensures Decode(MovImmBytes(d, v, false) + rest) == Some((MovImm(d, v), |MovImmBytes(d, v, false)|))
  {
    hide DecodeRM;
    var enc := MovImmBytes(d, v, false);
    var c := enc + rest;
    assert forall k | 0 <= k < |enc| :: c[k] == enc[k];
    LE4(v);
    assert c[|enc| - 4..|enc|] == LE(v, 4);
    if d >= 8 {
      assert ReadPrefix(c) == Prefix(false, true, 0, 0, 0, 1, 1);
    } else {
      assert ReadPrefix(c) == Prefix(false, false, 0, 0, 0, 0, 0);
    }
  }

  lemma MovImmSignedRoundTrip(d: Reg, v: Word, rest: seq<Byte>)
    requires v >= TWO64 - TWO31
    ensures Decode(MovImmBytes(d, v, false) + rest) == Some((MovImm(d, v), |MovImmBytes(d, v, false)|))
  {
    hide DecodeRM;
    var enc := MovImmBytes(d, v, false);
    var c := enc + rest;
    assert forall k | 0 <= k < |enc| :: c[k] == enc[k];
    LE4(v % TWO32);
    assert c[3..7] == LE(v % TWO32, 4);
    RegisterForm(c, 0, d);
  }

  /** Encodings that end in a 32-bit immediate or displacement. */
  lemma TailRoundTrip(head: seq<Byte>, v: int, rest: seq<Byte>)
    requires FitsInt32(v)
    ensures ReadS32(head + S32(v) + rest, |head|) == Some(v)
    ensures (head + S32(v) + rest)[..|head|] == head
    ensures |S32(v)| == 4
  {
    Split(head, S32(v), rest);
    S32RoundTrip(head + S32(v) + rest, |head|, v);
  }

  lemma RelRoundTrip(i: Instr, wide: bool, rest: seq<Byte>)
    requires Legal(i) && (i.Jmp? || i.Jcc? || i.Call?)
    ensures Decode(Encode(i, wide) + rest) == Some((i, |Encode(i, wide)|))
  {
    var enc := Encode(i, wide);
    var head := enc[..|enc| - 4];
    assert enc == head + S32(i.rel);
    TailRoundTrip(head, i.rel, rest);
    var c := head + S32(i.rel) + rest;
    assert enc + rest == c;
    assert forall k | 0 <= k < |head| :: c[k] == head[k];
  }

  lemma ImmRoundTrip(i: Instr, wide: bool, rest: seq<Byte>)
    requires Legal(i) && (i.AluImm? || i.LeaRip?)
    ensures Decode(Encode(i, wide) + rest) == Some((i, |Encode(i, wide)|))
  {
    var enc := Encode(i, wide);
    var head, v := enc[..3], if i.AluImm? then i.simm else i.rel;
    assert enc == head + S32(v);
    TailRoundTrip(head, v, rest);
    var c := head + S32(v) + rest;
    assert enc + rest == c;
    assert c[0] == head[0] && c[1] == head[1] && c[2] == head[2];
    if i.AluImm? {
      hide Decode, DecodeOp, DecodeRM, ModRM, RexByte;
      RegisterForm(c, AluExt(i.op), i.dst);
    }
  }

  lemma PlainRoundTrip(i: Instr, wide: bool, rest: seq<Byte>)
    requires i.Push? || i.Pop? || i.Ret? || i.Syscall? || i.Cqo?
    ensures Decode(Encode(i, wide) + rest) == Some((i, |Encode(i, wide)|))
  {
    var enc := Encode(i, wide);
    assert forall k | 0 <= k < |enc| :: (enc + rest)[k] == enc[k];
  }

  predicate GroupOpcode(op: Byte) {
    op in {0x89, 0x01, 0x29, 0x21, 0x09, 0x31, 0x39, 0x85, 0x81, 0xF7, 0xFF, 0xC1, 0xC7, 0xD3}
  }

  /** REX.W, opcode, register-direct ModRM: the operation is picked by DecodeRegOp. */
  lemma RegisterForm(c: seq<Byte>, reg: Reg, rm: Reg)
    requires |c| >= 3 && c[0] == RexByte(1, reg / 8, 0, rm / 8) && GroupOpcode(c[1])
    requires c[2] == ModRM(3, reg % 8, rm % 8)
    ensures Decode(c) == DecodeRegOp(c, c[1], reg, rm, 3)
  {
    hide DecodeRegOp;
    assert ReadPrefix(c) == Prefix(false, true, 1, reg / 8, 0, rm / 8, 1);
    assert DecodeRM(c, 2, ReadPrefix(c)) == Some(Decoded(reg, RegOp(rm), 3));
    assert Decode(c) == DecodeOp(c, ReadPrefix(c), c[1]);
  }

  /** The register number the ModRM reg field carries: a source register or an opcode extension. */
  function RegField(i: Instr): Reg
    requires i.MovRR? || i.Alu? || i.Idiv? || i.Unary? || i.ShiftCl? || i.ShiftImm? || i.AluImm?
    requires Legal(i)
  {
    match i
    case MovRR(_, s) => s
    case Alu(_, _, s) => s
    case Idiv(_) => 7
    case Unary(op, _) => if op == NOT then 2 else if op == NEG then 3 else if op == INC then 0 else 1
    case ShiftCl(op, _) => ShiftExt(op)
    case ShiftImm(op, _, _) => ShiftExt(op)
    case AluImm(op, _, _) => AluExt(op)
  }

  lemma RegisterRoundTrip(i: Instr, wide: bool, rest: seq<Byte>)
    requires Legal(i) && (i.MovRR? || i.Alu? || i.ShiftCl? || i.ShiftImm?)
    ensures Decode(Encode(i, wide) + rest) == Some((i, |Encode(i, wide)|))
  {
    hide Decode, DecodeOp, DecodeRM, ModRM, RexByte;
    var enc := Encode(i, wide);
    assert forall k | 0 <= k < |enc| :: (enc + rest)[k] == enc[k];
    RegisterForm(enc + rest, RegField(i), i.dst);
  }

  lemma GroupRoundTrip(i: Instr, wide: bool, rest: seq<Byte>)
    requires i.Idiv? || i.Unary?
    ensures Decode(Encode(i, wide) + rest) == Some((i, |Encode(i, wide)|))
  {
    hide Decode, DecodeOp, DecodeRM, ModRM, RexByte;
    var enc := Encode(i, wide);
    assert forall k | 0 <= k < |enc| :: (enc + rest)[k] == enc[k];
    RegisterForm(enc + rest, RegField(i), if i.Idiv? then i.src else i.dst);
  }

  lemma ImulRoundTrip(d: Reg, s: Reg, wide: bool, rest: seq<Byte>)
    ensures Decode(Encode(Imul(d, s), wide) + rest) == Some((Imul(d, s), 4))
  {
    var c := Encode(Imul(d, s), wide) + rest;
    assert c[0] == RexByte(1, d / 8, 0, s / 8) && c[1] == 0x0F && c[2] == 0xAF && c[3] == ModRM(3, d % 8, s % 8);
    assert ReadPrefix(c) == Prefix(false, true, 1, d / 8, 0, s / 8, 1);
    assert DecodeRM(c, 3, ReadPrefix(c)) == Some(Decoded(d, RegOp(s), 4));
    assert Decode(c) == DecodeTwoByte(c, ReadPrefix(c), 2);
  }

  /** Decoding an encoded instruction followed by anything returns it and its exact length. */
  lemma RoundTrip(i: Instr, wide: bool, rest: seq<Byte>)
    requires Legal(i)
    ensures Decode(Encode(i, wide) + rest) == Some((i, |Encode(i, wide)|))
    ensures |Encode(i, wide)| > 0
  {
    if i.LoadI? {
      LoadRoundTrip(i.width, i.dst, i.mem, rest);
    } else if i.StoreI? {
      StoreRoundTrip(i.width, i.mem, i.src, rest);
    } else if i.MovImm? {
      MovImmRoundTrip(i.dst, i.imm, wide, rest);
    } else if i.Jmp? || i.Jcc? || i.Call? {
      RelRoundTrip(i, wide, rest);
    } else if i.AluImm? || i.LeaRip? {
      ImmRoundTrip(i, wide, rest);
    } else if i.Imul? {
      ImulRoundTrip(i.dst, i.src, wide, rest);
    } else if i.MovRR? || i.Alu? || i.ShiftCl? || i.ShiftImm? {
      RegisterRoundTrip(i, wide, rest);
    } else if i.Idiv? || i.Unary? {
      GroupRoundTrip(i, wide, rest);
    } else {
      PlainRoundTrip(i, wide, rest);
    }
  }

  // ---- instruction streams ----

  predicate LegalStream(code: seq<Instr>) {
    forall i <- code :: Legal(i)
  }

  function EncodeAll(code: seq<Instr>, wide: bool): seq<Byte>
    requires LegalStream(code)
  {
    if code == [] then [] else Encode(code[0], wide) + EncodeAll(code[1..], wide)
  }

  /** Linear disassembly. */
  function DecodeAll(c: seq<Byte>): Option<seq<Instr>>
    decreases |c|
  {
    if c == [] then Some([]) else
      var d := Decode(c);
      if d.None? || d.value.1 == 0 || d.value.1 > |c| then None
      else
        var tail := DecodeAll(c[d.value.1..]);
        if tail.None? then None else Some([d.value.0] + tail.value)
  }

  /** Disassembling an encoded program gives the program back: no byte is read twice or skipped. */
  lemma {:induction false} StreamRoundTrip(code: seq<Instr>, wide: bool)
    requires LegalStream(code)
    ensures DecodeAll(EncodeAll(code, wide)) == Some(code)
  {
    if code != [] {
      var head, tail := Encode(code[0], wide), EncodeAll(code[1..], wide);
      RoundTrip(code[0], wide, tail);
      assert (head + tail)[|head|..] == tail;
      StreamRoundTrip(code[1..], wide);
      assert [code[0]] + code[1..] == code;
    }
  }

  /** The decoder of one instruction never sees the next: an encoding is no proper prefix of another. */
  lemma PrefixFree(i: Instr, j: Instr, wide: bool)
    requires Legal(i) && Legal(j) && Encode(i, wide) <= Encode(j, wide)
    ensures i == j
  {
    var ei, ej := Encode(i, wide), Encode(j, wide);
    RoundTrip(i, wide, ej[|ei|..]);
    RoundTrip(j, wide, []);
    assert ej == ei + ej[|ei|..] && ej + [] == ej;
  }

  /** rsp as an index is the one operand the encoder accepts and loses: its bytes mean "no index", in loads and in
      stores alike. */
  lemma RspIndexLost(w: Width, d: Reg, m: MemRef, rest: seq<Byte>)
    requires EncodableRef(m)
    ensures Decode(LoadBytes(w, d, m) + rest) == Some((LoadI(w, d, m), |LoadBytes(w, d, m)|))
       <==> !(m.index.Idx? && m.index.reg == RSP)
    ensures Decode(StoreBytes(w, m, d) + rest) == Some((StoreI(w, m, d), |StoreBytes(w, m, d)|))
       <==> !(m.index.Idx? && m.index.reg == RSP)
  {
    LoadIndexLost(w, d, m, rest);
    StoreIndexLost(w, d, m, rest);
  }

  lemma LoadIndexLost(w: Width, d: Reg, m: MemRef, rest: seq<Byte>)
    requires EncodableRef(m)
    ensures Decode(LoadBytes(w, d, m) + rest) == Some((LoadI(w, d, m), |LoadBytes(w, d, m)|))
       <==> !(m.index.Idx? && m.index.reg == RSP)
  {
    if m.index.Idx? && m.index.reg == RSP {
      var head := LoadHead(w, d, m);
      var c := LoadBytes(w, d, m) + rest;
      assert c[..|head|] == head;
      assert c[|head|] == RefBytes(d, m)[0] && c[|head| + 1] == RefBytes(d, m)[1];
    } else {
      LoadRoundTrip(w, d, m, rest);
    }
  }

  lemma StoreIndexLost(w: Width, d: Reg, m: MemRef, rest: seq<Byte>)
    requires EncodableRef(m)
    ensures Decode(StoreBytes(w, m, d) + rest) == Some((StoreI(w, m, d), |StoreBytes(w, m, d)|))
       <==> !(m.index.Idx? && m.index.reg == RSP)
  {
    if m.index.Idx? && m.index.reg == RSP {
      var head := StoreHead(w, m, d);
      var c := StoreBytes(w, m, d) + rest;
      assert c[..|head|] == head;
      assert c[|head|] == RefBytes(d, m)[0] && c[|head| + 1] == RefBytes(d, m)[1];
    } else {
      StoreRoundTrip(w, m, d, rest);
    }
  }
}
