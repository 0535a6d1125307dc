/** The Assembler object of ACLM/x64enc.py: it grows a byte buffer, records labels and relocations,
    and patches the buffer when it links. */
module AssemblerObject {
  import opened Wrappers
  import opened Words
  import opened Regs
  import opened Isa
  import opened Encoding
  import opened Assembly

  class Assembler {
    var code: seq<Byte>
    var labels: map<string, nat>
    var relocs: seq<Reloc>
    var deterministic: bool

    function State(): AsmState
      reads this
    {
      AsmState(code, labels, relocs)
    }

    ghost predicate Valid()
      reads this
    {
      FieldsOk(relocs, |code|)
    }

    /** The buffer grew by exactly these items. */
    twostate predicate Appended(items: seq<Item>)
      reads this
    {
      && deterministic == old(deterministic)
      && EmitAll(old(State()), items, old(deterministic)) == Some(State())
      && (old(Valid()) ==> Valid())
    }

    constructor ()
      ensures State() == EMPTY && !deterministic && Valid()
    {
      code, labels, relocs, deterministic := [], map[], [], false;
    }

    method Label(name: string) returns (r: Outcome<string>)
      modifies this`labels
      ensures r.Pass? <==> name !in old(labels)
      ensures if r.Pass? then Appended([Lab(name)]) else labels == old(labels)
    {
      if name in labels {
        return Fail("duplicate label");
      }
      labels := labels[name := |code|];
      Emit1(old(State()), Lab(name), deterministic);
      return Pass;
    }

    method EmitRel32Fixup(target: string)
      modifies this`code, this`relocs
      ensures code == old(code) + S32(0) && relocs == old(relocs) + [Reloc(|old(code)|, target)]
    {
      code := code + [0, 0, 0, 0];
      relocs := relocs + [Reloc(|code| - 4, target)];
      assert S32(0) == [0, 0, 0, 0] by { LEZero(); }
    }

    /** `jmp`, `jcc`, `call` and `lea_reg_label`: opcode bytes, then a field to fix up. */
    method EmitReference(it: Item)
      requires Refers(it)
      modifies this`code, this`relocs
      ensures Appended([it])
    {
      ghost var before := State();
      match it {
        case JmpTo(_) => code := code + [0xE9];
        case JccTo(cc, _) => code := code + [0x0F]; code := code + [0x80 + cc];
        case CallTo(_) => code := code + [0xE8];
        case LeaTo(d, _) =>
          code := code + [RexByte(1, d / 8, 0, 0)];
          code := code + [0x8D];
          code := code + [ModRM(0, d % 8, 5)];
      }
      assert code == before.code + OpcodeBytes(it);
      EmitRel32Fixup(it.target);
      ReferenceEmitted(before, it, deterministic, State());
    }

    method MovRegImm64(dst: Reg, v: int)
      modifies this`code
      ensures Appended([Ins(MovImm(dst, Wrap(v)))])
    {
      ghost var before := State();
      var imm := Wrap(v);
      EmitMovImm(dst, imm);
      Emit1(before, Ins(MovImm(dst, imm)), deterministic);
    }

    /** The choice of form: 10 bytes always, or zero-extended imm32, sign-extended imm32, imm64. */
    method EmitMovImm(dst: Reg, imm: Word)
      modifies this`code
      ensures code == old(code) + MovImmBytes(dst, imm, deterministic)
    {
      hide LE, RexByte, ModRM;
      if deterministic {
        code := code + [RexByte(1, 0, 0, dst / 8)];
        code := code + [0xB8 + dst % 8];
        code := code + LE(imm, 8);
      } else if imm <= 0xFFFF_FFFF {
        if dst >= 8 {
          code := code + [0x41];
        }
        code := code + [0xB8 + dst % 8];
        code := code + LE(imm, 4);
      } else if imm >= 0xFFFF_FFFF_8000_0000 {
        var signed := imm - TWO64;
        code := code + [RexByte(1, 0, 0, dst / 8)];
        code := code + [0xC7];
        code := code + [ModRM(3, 0, dst % 8)];
        assert signed % TWO32 == imm % TWO32;
        code := code + LE(signed % TWO32, 4);
      } else {
        code := code + [RexByte(1, 0, 0, dst / 8)];
        code := code + [0xB8 + dst % 8];
        code := code + LE(imm, 8);
      }
    }

    /** `mov_reg_reg` emits nothing for an identity move. */
    method MovRegReg(dst: Reg, src: Reg)
      modifies this`code
      ensures Appended(if dst == src then [] else [Ins(MovRR(dst, src))])
    {
      if dst == src {
        return;
      }
      Fixed(MovRR(dst, src));
    }

    /** The encoders whose bytes do not depend on anything but their operands. */
    method Fixed(i: Instr)
      requires Legal(i)
      modifies this`code
      ensures Appended([Ins(i)])
    {
      ghost var before := State();
      code := code + Encode(i, deterministic);
      Emit1(before, Ins(i), deterministic);
    }

    /** ModRM, and SIB when the operand needs one. */
    method EmitModRM(mod: nat, reg: Reg, m: MemRef)
      requires mod < 4 && (m.index.Idx? ==> LegalScale(m.index.scale))
      modifies this`code
      ensures code == old(code) + [ModRM(mod, reg % 8, if UsesSib(m) then 4 else m.base % 8)] + SibBytes(m)
    {
      hide ModRM;
      code := code + [ModRM(mod, reg % 8, if UsesSib(m) then 4 else m.base % 8)];
      if UsesSib(m) {
        match m.index {
          case Idx(i, s) => code := code + [ModRM(ScaleBits(s), i % 8, m.base % 8)];
          case NoIndex => code := code + [ModRM(0, 4, m.base % 8)];
        }
      }
    }

    /** The common tail of the memory encoders: ModRM, SIB, displacement when needed. */
    method EmitRef(reg: Reg, m: MemRef) returns (r: Outcome<string>)
      requires m.index.Idx? ==> LegalScale(m.index.scale)
      modifies this`code
      ensures r.Pass? <==> FitsInt32(m.disp)
      ensures r.Pass? ==> code == old(code) + RefBytes(reg, m)
    {
      hide ModRM, SibBytes, S32;
      var mod := if m.disp != 0 || m.base % 8 == 5 then 2 else 0;
      EmitModRM(mod, reg, m);
      if mod == 2 {
        if m.disp < -0x8000_0000 || m.disp > 0x7FFF_FFFF {
          return Fail("value does not fit in imm32");
        }
        code := code + S32(m.disp);
      }
      assert code == old(code) + RefBytes(reg, m);
      return Pass;
    }

    method EmitLoadHead(w: Width, dst: Reg, m: MemRef)
      modifies this`code
      ensures code == old(code) + LoadHead(w, dst, m)
    {
      match w {
        case W64 => code := code + [RefRex(1, dst, m)]; code := code + [0x8B];
        case W32 =>
          if dst >= 8 || m.base >= 8 || RexX(m) == 1 {
            code := code + [RefRex(0, dst, m)];
          }
          code := code + [0x8B];
        case W16 => code := code + [RefRex(1, dst, m)]; code := code + [0x0F]; code := code + [0xB7];
        case W8 => code := code + [RefRex(1, dst, m)]; code := code + [0x0F]; code := code + [0xB6];
      }
    }

    method EmitStoreHead(w: Width, m: MemRef, src: Reg)
      modifies this`code
      ensures code == old(code) + StoreHead(w, m, src)
    {
      match w {
        case W64 => code := code + [RefRex(1, src, m)]; code := code + [0x89];
        case W32 => code := code + [RefRex(0, src, m)]; code := code + [0x89];
        case W16 => code := code + [0x66]; code := code + [RefRex(0, src, m)]; code := code + [0x89];
        case W8 =>
          if 4 <= src < 8 || src >= 8 || m.base >= 8 || RexX(m) == 1 {
            code := code + [RefRex(0, src, m)];
          }
          code := code + [0x88];
      }
    }

    /** A load: its bytes, which are those of the instruction unless the index is rsp. */
    method LoadMem(w: Width, dst: Reg, m: MemRef) returns (r: Outcome<string>)
      modifies this`code
      ensures r.Pass? <==> EncodableRef(m)
      ensures r.Pass? ==> code == old(code) + LoadBytes(w, dst, m)
      ensures r.Pass? && LegalRef(m) ==> Appended([Ins(LoadI(w, dst, m))])
    {
      if m.index.Idx? && !LegalScale(m.index.scale) {
        return Fail("unknown scale");
      }
      EmitLoadHead(w, dst, m);
      r := EmitRef(dst, m);
      if r.Pass? {
        assert code == old(code) + LoadBytes(w, dst, m);
        if LegalRef(m) { Emit1(old(State()), Ins(LoadI(w, dst, m)), deterministic); }
      }
    }

    method StoreMem(w: Width, m: MemRef, src: Reg) returns (r: Outcome<string>)
      modifies this`code
      ensures r.Pass? <==> EncodableRef(m)
      ensures r.Pass? ==> code == old(code) + StoreBytes(w, m, src)
      ensures r.Pass? && LegalRef(m) ==> Appended([Ins(StoreI(w, m, src))])
    {
      if m.index.Idx? && !LegalScale(m.index.scale) {
        return Fail("unknown scale");
      }
      EmitStoreHead(w, m, src);
      r := EmitRef(src, m);
      if r.Pass? {
        assert code == old(code) + StoreBytes(w, m, src);
        if LegalRef(m) { Emit1(old(State()), Ins(StoreI(w, m, src)), deterministic); }
      }
    }

    /** `link`: patch every recorded field; stops at the first target that cannot be reached. */
    method Link(offs: map<string, int>) returns (r: Outcome<string>)
      requires Valid()
      modifies this`code
      ensures Valid()
      ensures r.Pass? <==> LinkAll(old(code), relocs, offs).Some?
      ensures r.Pass? ==> LinkAll(old(code), relocs, offs) == Some(code)
    {
      var n := 0;
      assert relocs[..0] == [];
      while n < |relocs|
        invariant n <= |relocs|
        invariant FieldsOk(relocs[..n], |old(code)|) && |code| == |old(code)|
        invariant LinkAll(old(code), relocs[..n], offs) == Some(code)
      {
        var reloc := relocs[n];
        FieldsWeaken(relocs, |old(code)|, n + 1, |old(code)|);
        assert relocs[..n + 1][..n] == relocs[..n];
        if reloc.target !in offs {
          NoLinkBeyond(old(code), relocs, n, offs);
          return Fail("undefined label referenced");
        }
        var rel := offs[reloc.target] - (reloc.offset + 4);
        if rel < -0x8000_0000 || rel > 0x7FFF_FFFF {
          NoLinkBeyond(old(code), relocs, n, offs);
          return Fail("value does not fit in imm32");
        }
        code := code[..reloc.offset] + S32(rel) + code[reloc.offset + 4..];
        n := n + 1;
      }
      assert relocs[..n] == relocs;
      return Pass;
    }
  }

  function OpcodeBytes(it: Item): seq<Byte>
    requires Refers(it)
  {
    match it
    case JmpTo(_) => [0xE9]
    case JccTo(cc, _) => [0x0F, 0x80 + cc]
    case CallTo(_) => [0xE8]
    case LeaTo(d, _) => [RexByte(1, d / 8, 0, 0), 0x8D, ModRM(0, d % 8, 5)]
  }

  lemma ReferenceBytes(it: Item, wide: bool)
    requires Refers(it)
    ensures ItemBytes(it, wide) == OpcodeBytes(it) + S32(0)
  {
  }

  lemma ReferenceEmitted(before: AsmState, it: Item, wide: bool, after: AsmState)
    requires Refers(it)
    requires after.code == before.code + OpcodeBytes(it) + S32(0) && after.labels == before.labels
    requires after.relocs == before.relocs + [Reloc(|before.code + OpcodeBytes(it)|, it.target)]
    ensures EmitAll(before, [it], wide) == Some(after)
    ensures FieldsOk(before.relocs, |before.code|) ==> FieldsOk(after.relocs, |after.code|)
  {
    hide Encode, ItemBytes, OpcodeBytes;
    ReferenceBytes(it, wide);
    RefersSplit(it, 0, wide);
    assert after.code == before.code + ItemBytes(it, wide);
    Emit1(before, it, wide);
    if FieldsOk(before.relocs, |before.code|) {
      EmitKeepsFields(before, [it], wide);
    }
  }

  lemma LEZero()
    ensures LE(0, 4) == [0, 0, 0, 0]
  {
    assert LE(0, 2) == [0, 0];
    assert LE(0, 3) == [0] + LE(0, 2);
    assert LE(0, 4) == [0] + LE(0, 3);
  }

  lemma NoLinkBeyond(code: seq<Byte>, relocs: seq<Reloc>, n: nat, offs: map<string, int>)
    requires FieldsOk(relocs, |code|) && n < |relocs| && Displacement(relocs[n], offs).None?
    ensures LinkAll(code, relocs, offs).None?
  {
    LinkFailsIff(code, relocs, offs);
    assert relocs[n] in relocs;
  }
}
