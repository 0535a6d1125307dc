/** Symbolic assembly, the Assembler that turns it into bytes with relocations, and the linker. */
module Assembly {
  import opened Wrappers
  import opened Words
  import opened Regs
  import opened Isa
  import opened Encoding

  /** One call of an encoder method: an instruction, a label, or a label-relative instruction. */
  datatype Item =
    | Ins(ins: Instr)
    | Lab(name: string)
    | JmpTo(target: string)
    | JccTo(cc: Cc, target: string)
    | CallTo(target: string)
    | LeaTo(dst: Reg, target: string)

  /** A 4-byte rel32 field waiting for its label. */
  datatype Reloc = Reloc(offset: nat, target: string)

  datatype AsmState = AsmState(code: seq<Byte>, labels: map<string, nat>, relocs: seq<Reloc>)

  const EMPTY: AsmState := AsmState([], map[], [])

  predicate Refers(it: Item) {
    it.JmpTo? || it.JccTo? || it.CallTo? || it.LeaTo?
  }

  /** The instruction an item stands for once its displacement is known. */
  function WithRel(it: Item, rel: int): Instr
    requires !it.Lab?
  {
    match it
    case Ins(i) => i
    case JmpTo(_) => Jmp(rel)
    case JccTo(cc, _) => Jcc(cc, rel)
    case CallTo(_) => Call(rel)
    case LeaTo(d, _) => LeaRip(d, rel)
  }

  predicate LegalItem(it: Item) {
    it.Ins? ==> Legal(it.ins)
  }

  predicate AllLegal(items: seq<Item>) {
    forall k | 0 <= k < |items| :: LegalItem(items[k])
  }

  /** Bytes emitted before linking: the displacement field is zero. */
  function ItemBytes(it: Item, wide: bool): seq<Byte>
    requires LegalItem(it)
  {
    if it.Lab? then [] else Encode(WithRel(it, 0), wide)
  }

  /** None is the ValueError of a duplicate label or an operand that does not fit. */
  function Emit(st: AsmState, it: Item, wide: bool): Option<AsmState> {
    if !LegalItem(it) then None
    else if it.Lab? then
      if it.name in st.labels then None else Some(st.(labels := st.labels[it.name := |st.code|]))
    else
      var code := st.code + ItemBytes(it, wide);
      Some(st.(code := code,
               relocs := if Refers(it) then st.relocs + [Reloc(Field(|code|), it.target)] else st.relocs))
  }

  /** Every label-relative encoding ends in its 4-byte field. */
  function Field(end: nat): nat {
    if end >= 4 then end - 4 else 0
  }

  function EmitAll(st: AsmState, items: seq<Item>, wide: bool): Option<AsmState>
    decreases |items|
  {
    if items == [] then Some(st)
    else
      var prev := EmitAll(st, items[..|items| - 1], wide);
      if prev.None? then None else Emit(prev.value, items[|items| - 1], wide)
  }

  lemma {:induction false} EmitConcat(st: AsmState, a: seq<Item>, b: seq<Item>, wide: bool)
    ensures EmitAll(st, a + b, wide) ==
            if EmitAll(st, a, wide).None? then None else EmitAll(EmitAll(st, a, wide).value, b, wide)
    decreases |b|
  {
    if b == [] {
      assert a + b == a;
    } else {
      assert (a + b)[..|a + b| - 1] == a + b[..|b| - 1];
      EmitConcat(st, a, b[..|b| - 1], wide);
    }
  }

  lemma Emit1(st: AsmState, it: Item, wide: bool)
    ensures EmitAll(st, [it], wide) == Emit(st, it, wide)
  {
    assert [it][..0] == [];
    assert EmitAll(st, [], wide) == Some(st);
  }

  // ---- relocation fields ----

  /** Fields lie inside the code, in order, without overlap. */
  predicate FieldsOk(relocs: seq<Reloc>, size: nat) {
    && (forall k | 0 <= k < |relocs| :: relocs[k].offset + 4 <= size)
    && (forall j, k | 0 <= j < k < |relocs| :: relocs[j].offset + 4 <= relocs[k].offset)
  }

  predicate InField(relocs: seq<Reloc>, i: int) {
    exists k | 0 <= k < |relocs| :: relocs[k].offset <= i < relocs[k].offset + 4
  }

  /** The displacement only changes the last four bytes of a label-relative encoding. */
  lemma RefersSplit(it: Item, rel: int, wide: bool)
    requires Refers(it) && FitsInt32(rel)
    ensures |ItemBytes(it, wide)| >= 5
    ensures Encode(WithRel(it, rel), wide) == ItemBytes(it, wide)[..|ItemBytes(it, wide)| - 4] + S32(rel)
  {
  }

  /** Assembling any program keeps the fields disjoint and inside the code. */
  lemma {:induction false} EmitKeepsFields(st: AsmState, items: seq<Item>, wide: bool)
    requires FieldsOk(st.relocs, |st.code|) && EmitAll(st, items, wide).Some?
    ensures var st' := EmitAll(st, items, wide).value;
            FieldsOk(st'.relocs, |st'.code|) && st.code <= st'.code
    decreases |items|
  {
    if items != [] {
      EmitKeepsFields(st, items[..|items| - 1], wide);
      var it := items[|items| - 1];
      if Refers(it) {
        RefersSplit(it, 0, wide);
      }
    }
  }

  // ---- linking ----

  function Displacement(r: Reloc, offs: map<string, int>): Option<int> {
    if r.target !in offs then None
    else
      var rel := offs[r.target] - (r.offset + 4);
      if FitsInt32(rel) then Some(rel) else None
  }

  function Patch(code: seq<Byte>, r: Reloc, rel: int): seq<Byte>
    requires r.offset + 4 <= |code| && FitsInt32(rel)
  {
    code[..r.offset] + S32(rel) + code[r.offset + 4..]
  }

  /** `link`: patch the fields one after the other; None is an undefined or out-of-range target. */
  function LinkAll(code: seq<Byte>, relocs: seq<Reloc>, offs: map<string, int>): (c: Option<seq<Byte>>)
    requires FieldsOk(relocs, |code|)
    ensures c.Some? ==> |c.value| == |code|
    decreases |relocs|
  {
    if relocs == [] then Some(code)
    else
      var prev := LinkAll(code, relocs[..|relocs| - 1], offs);
      var r := relocs[|relocs| - 1];
      var rel := Displacement(r, offs);
      if prev.None? || rel.None? then None else Some(Patch(prev.value, r, rel.value))
  }

  lemma {:induction false} LinkFailsIff(code: seq<Byte>, relocs: seq<Reloc>, offs: map<string, int>)
    requires FieldsOk(relocs, |code|)
    ensures LinkAll(code, relocs, offs).Some? <==> forall r <- relocs :: Displacement(r, offs).Some?
    decreases |relocs|
  {
    if relocs != [] {
      var init := relocs[..|relocs| - 1];
      LinkFailsIff(code, init, offs);
      assert relocs == init + [relocs[|relocs| - 1]];
    }
  }

  lemma InFieldPrefix(relocs: seq<Reloc>, n: nat, i: int)
    requires n <= |relocs|
    ensures InField(relocs[..n], i) ==> InField(relocs, i)
  {
    forall k | 0 <= k < n && relocs[..n][k].offset <= i < relocs[..n][k].offset + 4
      ensures InField(relocs, i)
    {
      assert relocs[k].offset <= i < relocs[k].offset + 4;
    }
  }

  lemma FieldsWeaken(relocs: seq<Reloc>, size: nat, n: nat, size': nat)
    requires FieldsOk(relocs, size) && n <= |relocs| && size <= size'
    ensures FieldsOk(relocs[..n], size')
  {
  }

  lemma PatchExtend(code: seq<Byte>, tail: seq<Byte>, r: Reloc, rel: int)
    requires r.offset + 4 <= |code| && FitsInt32(rel)
    ensures Patch(code + tail, r, rel) == Patch(code, r, rel) + tail
  {
  }

  /** Linking changes no byte outside a field. */
  lemma {:induction false} LinkKeepsRest(code: seq<Byte>, relocs: seq<Reloc>, offs: map<string, int>, i: nat)
    requires FieldsOk(relocs, |code|) && LinkAll(code, relocs, offs).Some?
    requires i < |code| && !InField(relocs, i)
    ensures LinkAll(code, relocs, offs).value[i] == code[i]
    decreases |relocs|
  {
    if relocs != [] {
      var n := |relocs| - 1;
      InFieldPrefix(relocs, n, i);
      LinkKeepsRest(code, relocs[..n], offs, i);
      assert !(relocs[n].offset <= i < relocs[n].offset + 4);
    }
  }

  /** Every field holds the distance from its end to its label. */
  lemma {:induction false} LinkReaches(code: seq<Byte>, relocs: seq<Reloc>, offs: map<string, int>, k: nat)
    requires FieldsOk(relocs, |code|) && LinkAll(code, relocs, offs).Some? && k < |relocs|
    ensures Displacement(relocs[k], offs).Some?
    ensures var o := relocs[k].offset;
            LinkAll(code, relocs, offs).value[o..o + 4] == S32(Displacement(relocs[k], offs).value)
    decreases |relocs|
  {
    var n := |relocs| - 1;
    if k < n {
      LinkReaches(code, relocs[..n], offs, k);
      var o, p, c := relocs[k].offset, LinkAll(code, relocs[..n], offs).value, LinkAll(code, relocs, offs).value;
      assert relocs[..n][k] == relocs[k];
      assert c[o..o + 4] == p[o..o + 4];
    }
  }

  /** Linking twice with the same addresses is linking once. */
  lemma LinkIdempotent(code: seq<Byte>, relocs: seq<Reloc>, offs: map<string, int>)
    requires FieldsOk(relocs, |code|) && LinkAll(code, relocs, offs).Some?
    ensures LinkAll(LinkAll(code, relocs, offs).value, relocs, offs) == LinkAll(code, relocs, offs)
  {
    hide LinkAll, FieldsOk, InField;
    var c := LinkAll(code, relocs, offs).value;
    LinkFailsIff(code, relocs, offs);
    LinkFailsIff(c, relocs, offs);
    var d := LinkAll(c, relocs, offs).value;
    forall i | 0 <= i < |c|
      ensures d[i] == c[i]
    {
      RelinkKeeps(code, relocs, offs, i);
    }
    assert c == d;
  }

  lemma RelinkKeeps(code: seq<Byte>, relocs: seq<Reloc>, offs: map<string, int>, i: nat)
    requires FieldsOk(relocs, |code|) && LinkAll(code, relocs, offs).Some? && i < |code|
    requires LinkAll(LinkAll(code, relocs, offs).value, relocs, offs).Some?
    ensures LinkAll(LinkAll(code, relocs, offs).value, relocs, offs).value[i] == LinkAll(code, relocs, offs).value[i]
  {
    hide LinkAll;
    var c := LinkAll(code, relocs, offs).value;
    var d := LinkAll(c, relocs, offs).value;
    if InField(relocs, i) {
      var k :| 0 <= k < |relocs| && relocs[k].offset <= i < relocs[k].offset + 4;
      var o := relocs[k].offset;
      LinkReaches(code, relocs, offs, k);
      LinkReaches(c, relocs, offs, k);
      assert c[i] == c[o..o + 4][i - o] && d[i] == d[o..o + 4][i - o];
    } else {
      LinkKeepsRest(c, relocs, offs, i);
    }
  }

  // ---- what the linked bytes are ----

  /** Total size of the bytes of a program. */
  function Size(items: seq<Item>, wide: bool): nat
    requires AllLegal(items)
    decreases |items|
  {
    if items == [] then 0 else Size(items[..|items| - 1], wide) + |ItemBytes(items[|items| - 1], wide)|
  }

  /** The label-relative item emitted at `at`, resolved against final offsets. */
  function Resolved(it: Item, at: nat, offs: map<string, int>, wide: bool): Option<Instr>
    requires !it.Lab? && LegalItem(it)
  {
    if !Refers(it) then Some(it.ins)
    else
      var rel := Displacement(Reloc(Field(at + |ItemBytes(it, wide)|), it.target), offs);
      if rel.None? then None else Some(WithRel(it, rel.value))
  }

  /** The linked image, stated without relocations: every item encoded with its final displacement. */
  function Linked(items: seq<Item>, offs: map<string, int>, wide: bool): Option<seq<Byte>>
    requires AllLegal(items)
    decreases |items|
  {
    if items == [] then Some([])
    else
      var n := |items| - 1;
      var prev := Linked(items[..n], offs, wide);
      if prev.None? then None
      else if items[n].Lab? then prev
      else
        var i := Resolved(items[n], Size(items[..n], wide), offs, wide);
        if i.None? then None else Some(prev.value + Encode(i.value, wide))
  }

  lemma {:induction false} LinkExtend(code: seq<Byte>, tail: seq<Byte>, relocs: seq<Reloc>, offs: map<string, int>)
    requires FieldsOk(relocs, |code|)
    ensures FieldsOk(relocs, |code + tail|)
    ensures LinkAll(code + tail, relocs, offs) ==
            if LinkAll(code, relocs, offs).None? then None else Some(LinkAll(code, relocs, offs).value + tail)
    decreases |relocs|
  {
    hide Patch, Displacement;
    FieldsWeaken(relocs, |code|, |relocs|, |code + tail|);
    assert relocs[..|relocs|] == relocs;
    if relocs != [] {
      var n := |relocs| - 1;
      FieldsWeaken(relocs, |code|, n, |code|);
      LinkExtend(code, tail, relocs[..n], offs);
      var p, rel := LinkAll(code, relocs[..n], offs), Displacement(relocs[n], offs);
      if p.Some? && rel.Some? {
        DisplacementFits(relocs[n], offs);
        PatchExtend(p.value, tail, relocs[n], rel.value);
      }
    }
  }

  lemma DisplacementFits(r: Reloc, offs: map<string, int>)
    requires Displacement(r, offs).Some?
    ensures FitsInt32(Displacement(r, offs).value)
  {
  }

  lemma LabelIsEmpty(it: Item, wide: bool)
    requires it.Lab?
    ensures ItemBytes(it, wide) == []
  {
  }

  lemma EmitSize(st: AsmState, it: Item, wide: bool)
    requires Emit(st, it, wide).Some?
    ensures LegalItem(it) && |Emit(st, it, wide).value.code| == |st.code| + |ItemBytes(it, wide)|
  {
    if it.Lab? { LabelIsEmpty(it, wide); }
    hide ItemBytes, LegalItem;
  }

  lemma EmitLast(items: seq<Item>, wide: bool)
    requires items != [] && EmitAll(EMPTY, items, wide).Some?
    ensures var prev := EmitAll(EMPTY, items[..|items| - 1], wide);
            prev.Some? && Emit(prev.value, items[|items| - 1], wide) == EmitAll(EMPTY, items, wide)
  {
    hide Emit;
  }

  lemma LegalLast(items: seq<Item>)
    requires items != [] && AllLegal(items[..|items| - 1]) && LegalItem(items[|items| - 1])
    ensures AllLegal(items)
  {
    hide LegalItem;
    assert forall k | 0 <= k < |items| - 1 :: items[k] == items[..|items| - 1][k];
  }

  lemma SizeLast(items: seq<Item>, wide: bool)
    requires items != [] && AllLegal(items) && AllLegal(items[..|items| - 1])
    ensures Size(items, wide) == Size(items[..|items| - 1], wide) + |ItemBytes(items[|items| - 1], wide)|
  {
    hide ItemBytes, AllLegal;
  }

  /** A program that assembles has only legal items, and its size is that of its bytes. */
  lemma {:induction false} AssembledSize(items: seq<Item>, wide: bool)
    requires EmitAll(EMPTY, items, wide).Some?
    ensures AllLegal(items)
    ensures |EmitAll(EMPTY, items, wide).value.code| == Size(items, wide)
    decreases |items|
  {
    if items != [] {
      hide ItemBytes, LegalItem, Emit, EmitAll, Size, AllLegal;
      var n := |items| - 1;
      EmitLast(items, wide);
      AssembledSize(items[..n], wide);
      EmitSize(EmitAll(EMPTY, items[..n], wide).value, items[n], wide);
      LegalLast(items);
      SizeLast(items, wide);
    }
  }

  /** Linking an assembled program yields exactly the encoding of the resolved instructions,
      and fails exactly when some instruction cannot be resolved. */
  lemma {:induction false} LinkIsResolution(items: seq<Item>, offs: map<string, int>, wide: bool)
    requires EmitAll(EMPTY, items, wide).Some?
    ensures AllLegal(items)
    ensures var st := EmitAll(EMPTY, items, wide).value;
            FieldsOk(st.relocs, |st.code|) && LinkAll(st.code, st.relocs, offs) == Linked(items, offs, wide)
    decreases |items|
  {
    hide Encode, Patch, Displacement, FieldsOk, ItemBytes;
    EmitKeepsFields(EMPTY, items, wide) by { EmptyFields(); }
    AssembledSize(items, wide);
    if items == [] {
    } else {
      var n := |items| - 1;
      LinkIsResolution(items[..n], offs, wide);
      AssembledSize(items[..n], wide);
      var st := EmitAll(EMPTY, items[..n], wide).value;
      if Refers(items[n]) {
        LinkLastField(st, items[n], offs, wide);
      } else if items[n].Ins? {
        LinkExtend(st.code, ItemBytes(items[n], wide), st.relocs, offs);
        PlainBytes(items[n], wide);
      }
    }
  }

  lemma EmptyFields()
    ensures FieldsOk(EMPTY.relocs, |EMPTY.code|)
  {
  }

  lemma PlainBytes(it: Item, wide: bool)
    requires it.Ins? && LegalItem(it)
    ensures ItemBytes(it, wide) == Encode(it.ins, wide)
  {
  }

  lemma LinkLastField(st: AsmState, it: Item, offs: map<string, int>, wide: bool)
    requires FieldsOk(st.relocs, |st.code|) && Refers(it)
    requires FieldsOk(Emit(st, it, wide).value.relocs, |Emit(st, it, wide).value.code|)
    ensures var st' := Emit(st, it, wide).value;
            var i := Resolved(it, |st.code|, offs, wide);
            LinkAll(st'.code, st'.relocs, offs) ==
            if LinkAll(st.code, st.relocs, offs).None? || i.None? then None
            else Some(LinkAll(st.code, st.relocs, offs).value + Encode(i.value, wide))
  {
    hide Encode, ItemBytes, S32, LinkAll, FieldsOk, Displacement, Patch;
    var st' := Emit(st, it, wide).value;
    var bytes := ItemBytes(it, wide);
    RefersSplit(it, 0, wide);
    LinkExtend(st.code, bytes, st.relocs, offs);
    var r := st'.relocs[|st.relocs|];
    assert st'.relocs[..|st.relocs|] == st.relocs;
    LinkUnfold(st'.code, st'.relocs, offs);
    if LinkAll(st.code, st.relocs, offs).Some? && Displacement(r, offs).Some? {
      DisplacementFits(r, offs);
      RefersSplit(it, Displacement(r, offs).value, wide);
      PatchLast(LinkAll(st.code, st.relocs, offs).value, bytes, r, Displacement(r, offs).value);
    }
  }

  /** One unfolding of the linking loop. */
  lemma LinkUnfold(code: seq<Byte>, relocs: seq<Reloc>, offs: map<string, int>)
    requires FieldsOk(relocs, |code|) && relocs != []
    ensures var n := |relocs| - 1;
            && FieldsOk(relocs[..n], |code|)
            && (Displacement(relocs[n], offs).Some? ==> FitsInt32(Displacement(relocs[n], offs).value))
            && relocs[n].offset + 4 <= |code|
            && LinkAll(code, relocs, offs) ==
               if LinkAll(code, relocs[..n], offs).None? || Displacement(relocs[n], offs).None? then None
               else Some(Patch(LinkAll(code, relocs[..n], offs).value, relocs[n], Displacement(relocs[n], offs).value))
  {
  }

  lemma PatchLast(c: seq<Byte>, bytes: seq<Byte>, r: Reloc, rel: int)
    requires FitsInt32(rel) && |bytes| >= 4 && r.offset == |c| + |bytes| - 4
    ensures Patch(c + bytes, r, rel) == c + (bytes[..|bytes| - 4] + S32(rel))
  {
  }
}
