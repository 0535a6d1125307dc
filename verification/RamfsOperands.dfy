/** Which entry `ramfs_put` appends, in terms of its operands' own values: the three operands are evaluated into r12,
    r13 and r14 one after the other, so later ones can read or overwrite earlier ones. */
module RamfsOperands {
  import opened Wrappers
  import opened Words
  import opened Memory
  import opened Regs
  import opened Isa
  import opened Assembly
  import opened Ast
  import opened Codegen
  import opened Semantics
  import opened ExprProofs
  import opened StmtProofs
  import opened MachineSteps
  import opened Flow
  import opened Ramfs
  import opened RamfsCode
  import opened RamfsGet

  /** The operands' values before the statement. */
  function Own(name: Expr, data: Expr, len: Expr, c: Ctx, m: Machine, syms: Syms): Seen3 {
    Seen3(Wrap(Value(name, c, m, syms)), Wrap(Value(data, c, m, syms)), Wrap(Value(len, c, m, syms)))
  }

  predicate ReadsR13(e: Expr) {
    match e
    case RegName(n) => Resolve(n) == Some(R13)
    case Bin(_, l, r) => ReadsR13(l) || ReadsR13(r)
    case _ => false
  }

  /** An operand that does not read r13 does not notice the data in it. */
  lemma {:induction false} SeenBesideData(e: Expr, x: Word, c: Ctx, m: Machine, d: Word, syms: Syms)
    requires WellFormed(c) && !ReadsR13(e)
    ensures Seen(e, x, c, m.Set(R13, d), syms) == Seen(e, x, c, m, syms)
    ensures R12After(e, x, c, m.Set(R13, d), syms) == R12After(e, x, c, m, syms)
  {
    if e.Bin? {
      SeenBesideData(e.left, x, c, m, d, syms);
      SeenBesideData(e.right, R12After(e.left, x, c, m, syms), c, m, d, syms);
    } else {
      LeafBesideData(e, x, c, m, d, syms);
    }
  }

  lemma LeafBesideData(e: Expr, x: Word, c: Ctx, m: Machine, d: Word, syms: Syms)
    requires WellFormed(c) && !Compound(e) && !ReadsR13(e)
    ensures Value(e, c, m.Set(R13, d).Set(R12, x), syms) == Value(e, c, m.Set(R12, x), syms)
  {
    hide Load64;
    if e.RegName? {
      hide Resolve;
    }
  }

  /** An operand without r12 sees its value, whatever r12 holds. */
  lemma SeenUnread(e: Expr, x: Word, c: Ctx, m: Machine, syms: Syms)
    requires WellFormed(c) && !ReadsR12(e)
    ensures Seen(e, x, c, m, syms) == Wrap(Value(e, c, m, syms))
    ensures R12After(e, x, c, m, syms) == if Compound(e) then Wrap(Value(e.right, c, m, syms)) else x
  {
    hide Seen, R12After, Value;
    R12IntactIfUnread(e);
    SeenIsValue(e, x, c, m, syms);
  }

  /** For any operands: the code sees all three values exactly when the data is its own with the name's address in r12,
      the length is its own with the data in r13 besides, and r12 still holds the name's address after the last
      compound one of data and length, whose right operand it then holds. */
  lemma PutSeenIff(name: Expr, data: Expr, len: Expr, c: Ctx, m: Machine, syms: Syms)
    ensures var a := Seen(name, m.regs[R12], c, m, syms);
            var x, m' := R12After(data, a, c, m, syms), m.Set(R13, Seen(data, a, c, m, syms));
            PutSeen(name, data, len, c, m, syms) == Own(name, data, len, c, m, syms) <==>
            && Seen(data, a, c, m, syms) == Wrap(Value(data, c, m, syms))
            && Seen(len, x, c, m', syms) == Wrap(Value(len, c, m, syms))
            && (if Compound(len) then Seen(len.right, R12After(len.left, x, c, m', syms), c, m', syms)
                else if Compound(data) then Seen(data.right, R12After(data.left, a, c, m, syms), c, m, syms)
                else a) == Wrap(Value(name, c, m, syms))
  {
    hide Seen, Value, R12After;
    var a := Seen(name, m.regs[R12], c, m, syms);
    R12Left(data, a, c, m, syms);
    R12Left(len, R12After(data, a, c, m, syms), c, m.Set(R13, Seen(data, a, c, m, syms)), syms);
  }

  lemma R12Left(e: Expr, x: Word, c: Ctx, m: Machine, syms: Syms)
    ensures R12After(e, x, c, m, syms) ==
            if Compound(e) then Seen(e.right, R12After(e.left, x, c, m, syms), c, m, syms) else x
  {
    hide Seen;
  }

  /** What a caller can check: nothing is lost when data and length are simple and read no register that an earlier
      operand is in, and the name reads r12 in time. */
  lemma PutSeenIsOwn(name: Expr, data: Expr, len: Expr, c: Ctx, m: Machine, syms: Syms)
    requires WellFormed(c) && R12Intact(name) && !Compound(data) && !Compound(len)
    requires !ReadsR12(data) && !ReadsR12(len) && !ReadsR13(len)
    ensures PutSeen(name, data, len, c, m, syms) == Own(name, data, len, c, m, syms)
  {
    hide Seen, R12After, Value, R12Intact, ReadsR12, ReadsR13;
    var a := Seen(name, m.regs[R12], c, m, syms);
    SeenIsValue(name, m.regs[R12], c, m, syms);
    SeenUnread(data, a, c, m, syms);
    SeenUnread(len, a, c, m, syms);
    SeenBesideData(len, a, c, m, Seen(data, a, c, m, syms), syms);
  }

  /** With simple data and length, exactly: data or length in r12 is seen as the name's address, and length in r13 as
      the data, so each must hold that already. */
  lemma PutSimpleIff(name: Expr, data: Expr, len: Expr, c: Ctx, m: Machine, syms: Syms)
    requires WellFormed(c) && R12Intact(name) && !Compound(data) && !Compound(len)
    ensures var own := Own(name, data, len, c, m, syms);
            PutSeen(name, data, len, c, m, syms) == own <==>
            && (ReadsR12(data) ==> own.name == m.regs[R12])
            && (ReadsR12(len) ==> own.name == m.regs[R12])
            && (ReadsR13(len) ==> own.data == m.regs[R13])
  {
    hide Seen, Value, R12Intact, ReadsR12, ReadsR13;
    var a := Seen(name, m.regs[R12], c, m, syms);
    SeenIsValue(name, m.regs[R12], c, m, syms);
    SimpleSees(data, a, c, m, m.regs[R13], syms);
    SameButR13(m);
    SimpleSees(len, a, c, m, Seen(data, a, c, m, syms), syms);
  }

  lemma SameButR13(m: Machine)
    ensures m.Set(R13, m.regs[R13]) == m
  {
    assert m.regs[R13 := m.regs[R13]] == m.regs;
  }

  /** A simple operand with x in r12 and d in r13. */
  lemma SimpleSees(e: Expr, x: Word, c: Ctx, m: Machine, d: Word, syms: Syms)
    requires WellFormed(c) && !Compound(e)
    ensures R12After(e, x, c, m.Set(R13, d), syms) == x
    ensures Seen(e, x, c, m.Set(R13, d), syms) ==
            if ReadsR12(e) then x else if ReadsR13(e) then d else Wrap(Value(e, c, m, syms))
    ensures ReadsR12(e) ==> !ReadsR13(e) && Wrap(Value(e, c, m, syms)) == m.regs[R12]
    ensures ReadsR13(e) ==> Wrap(Value(e, c, m, syms)) == m.regs[R13]
  {
    hide Load64;
    if e.RegName? {
      hide Resolve;
      if Resolve(e.name).Some? { NoWrapWord(m.regs[Resolve(e.name).value]); }
      NoWrapWord(x);
      NoWrapWord(d);
    }
  }

  lemma NoWrapWord(w: Word)
    ensures Wrap(w) == w
  {
  }

  /** With a compound data or length operand the name's address is gone: the name is read from the right operand of the
      last compound one. Data and length are seen as their values when they read neither r12 nor, the length, r13. */
  lemma PutCompoundName(name: Expr, data: Expr, len: Expr, c: Ctx, m: Machine, syms: Syms)
    requires WellFormed(c) && (Compound(data) || Compound(len))
    requires !ReadsR12(data) && !ReadsR12(len) && !ReadsR13(len)
    ensures var own, last := Own(name, data, len, c, m, syms), if Compound(len) then len else data;
            PutSeen(name, data, len, c, m, syms) == own.(name := Wrap(Value(last.right, c, m, syms)))
  {
    hide Seen, R12After, Value, ReadsR12, ReadsR13;
    var a := Seen(name, m.regs[R12], c, m, syms);
    var x := R12After(data, a, c, m, syms);
    SeenUnread(data, a, c, m, syms);
    SeenUnread(len, x, c, m, syms);
    SeenBesideData(len, x, c, m, Seen(data, a, c, m, syms), syms);
  }

  /** `ramfs_put reg5, reg4 + 8, 3`: whatever the registers hold, the name is read from address 8. */
  lemma NameLost(c: Ctx, m: Machine, syms: Syms)
    requires WellFormed(c)
    ensures PutSeen(RegName("reg5"), Bin(Plus, RegName("reg4"), Num(8)), Num(3), c, m, syms).name == 8
  {
    hide Resolve;
    var data := Bin(Plus, RegName("reg4"), Num(8));
    VirtualResolves("reg4");
    assert !ReadsR12(RegName("reg4"));
    assert !ReadsR12(data) && !ReadsR12(Num(3)) && !ReadsR13(Num(3));
    assert Value(Num(8), c, m, syms) == 8;
    hide Value, PutSeen;
    PutCompoundName(RegName("reg5"), data, Num(3), c, m, syms);
  }

  // ---- the entry on the machine ----

  /** The entry a put of these operands means. */
  function OwnEntry(nm: seq<Byte>, name: Expr, data: Expr, len: Expr, c: Ctx, m: Machine, syms: Syms): Entry {
    var own := Own(name, data, len, c, m, syms);
    Entry(nm, own.data, own.len)
  }

  /** `ramfs_put` with room, for any operands: it appends the entry its operands mean, `nm` being the name at the first
      operand's own address, exactly when the bytes at the address the code sees are stored as the same name and data
      and length are seen as their values. */
  lemma PutEntryIff(x: Listing, pc: nat, fs: string, found: string, cn: string, done: string, name: Expr, data: Expr,
                    len: Expr, c: Ctx, m: Machine, base: int, es: seq<Entry>, bytes: seq<Byte>, own: seq<Byte>,
                    nm: seq<Byte>, syms: Syms) returns (t: Machine)
    requires WellFormed(c) && PutEmitted(name, data, len, c) && Unique(x.items) &&
             Stands(x, pc, PutCode(fs, found, cn, done, name, data, len, c))
    requires Readable(name, c, m, m.regs[RSP], syms) && Readable(data, c, m, m.regs[RSP], syms) &&
             Readable(len, c, m, m.regs[RSP], syms)
    requires TablePlaced(m, base, 24 + 8 * MaxDepth3(name, data, len), syms)
    requires var at, lo := PutSeen(name, data, len, c, m, syms).name as int,
             m.regs[RSP] as int - 24 - 8 * MaxDepth3(name, data, len);
             NameApart(m.mem, at, bytes, base) && (at + NAME_SIZE <= lo || m.regs[RSP] <= at)
    requires LookedUp(m.mem, Own(name, data, len, c, m, syms).name, own) && Fits(nm) && Spells(own, nm)
    requires ListAt(m.mem, base, es) && |es| < SLOTS
    ensures Reaches(x, Spot(pc, m), Spot(pc + |PutCode(fs, found, cn, done, name, data, len, c)|, t), syms)
    ensures var v, w := PutSeen(name, data, len, c, m, syms), Own(name, data, len, c, m, syms);
            && Terminated(bytes)
            && (ListAt(t.mem, base, es + [OwnEntry(nm, name, data, len, c, m, syms)]) <==>
                StoredName(bytes) == nm && v.data == w.data && v.len == w.len)
            && (v == w ==> StoredName(bytes) == nm)
  {
    hide Unique, Stands, Reaches, PutCode, Represents, PutSpec, PutSeen, Own, Readable, WellFormed, PutEmitted,
      MaxDepth3,
      Spells, StoredName;
    var s :| TableAt(m.mem, base, s) && Represents(s, es);
    var v := PutSeen(name, data, len, c, m, syms);
    t := PutReaches(x, pc, fs, found, cn, done, name, data, len, c, m, base, s, bytes, syms);
    LongEnough(bytes);
    LongEnough(own);
    PutStores(s, es, bytes, v.data, v.len);
    TableIsList(t.mem, base, PutSpec(s, bytes, v.data, v.len), es, StoredName(bytes), nm, v.data, v.len,
                OwnEntry(nm, name, data, len, c, m, syms));
    StoredSpelled(own, nm);
    if v == Own(name, data, len, c, m, syms) { SameBytes(m.mem, v.name, bytes, own); }
  }

  lemma StoredSpelled(name: seq<Byte>, nm: seq<Byte>)
    requires Fits(nm) && Spells(name, nm) && Terminated(name)
    ensures StoredName(name) == nm
  {
    hide NameLen;
    NameLenIs(name, nm);
  }

  lemma SameBytes(m: Mem, at: int, a: seq<Byte>, b: seq<Byte>)
    requires |a| == |b| && Holds8(m, at, a) && Holds8(m, at, b)
    ensures a == b
  {
    forall i | 0 <= i < |a|
      ensures a[i] == b[i]
    {
      assert Rd(m, at + i) == a[i] && Rd(m, at + i) == b[i];
    }
  }

  /** The table after the put against the entry that was meant. */
  lemma TableIsList(m: Mem, base: int, s: seq<Byte>, es: seq<Entry>, stored: seq<Byte>, nm: seq<Byte>, ptr: Word,
                    len: Word, e: Entry)
    requires TableAt(m, base, s) && Represents(s, if stored == [] then es else es + [Entry(stored, ptr, len)])
    requires Fits(nm) && e.name == nm
    ensures ListAt(m, base, es + [e]) <==> stored == nm && ptr == e.ptr && len == e.len
  {
    hide Represents;
    if ListAt(m, base, es + [e]) {
      var s' :| TableAt(m, base, s') && Represents(s', es + [e]);
      SameBytes(m, base, s, s');
      OneList(s, es + [e], if stored == [] then es else es + [Entry(stored, ptr, len)]);
      LastEntry(es, e, stored, ptr, len);
    }
  }

  lemma LastEntry(es: seq<Entry>, e: Entry, stored: seq<Byte>, ptr: Word, len: Word)
    requires es + [e] == if stored == [] then es else es + [Entry(stored, ptr, len)]
    ensures stored == e.name && ptr == e.ptr && len == e.len
  {
    assert (es + [e])[|es|] == e;
  }
}
