/** The descriptor ring in memory: header words, slots, and what the emitted stores do to them. */
module DmaRingMemory {
  import opened Wrappers
  import opened Words
  import opened Memory
  import opened Regs
  import opened Isa
  import opened Assembly
  import opened Semantics
  import opened MachineSteps
  import opened DmaRing

  const RING := "__data___dmaring"

  function SlotAt(base: int, i: nat): int {
    base + 16 + 16 * i
  }

  /** The ring as it is, except that the head word is `h`. */
  ghost predicate RingWith(m: Mem, base: int, h: nat, r: Ring) {
    && RingOk(r)
    && Load(m, base, 4) == h && Load(m, base + 4, 4) == r.tail && Load(m, base + 8, 4) == |r.cells| - 1
    && forall i | 0 <= i < |r.cells| :: CellAt(m, base, i, r.cells[i])
  }

  ghost predicate RingAt(m: Mem, base: int, r: Ring) {
    RingWith(m, base, r.head, r)
  }

  ghost predicate CellAt(m: Mem, base: int, i: nat, c: Cell) {
    Load64(m, SlotAt(base, i)) == c.0 && Load64(m, SlotAt(base, i) + 8) == c.1
  }

  function RingSize(n: nat): nat {
    16 + 16 * n
  }

  /** The ring lies in the address space and apart from the stack words the code uses: four, and `depth` more for
      its operands; slots are a power of two. */
  ghost predicate RingPlaced(m: Machine, base: int, n: nat, depth: nat, syms: Syms) {
    && 0 <= base && base + RingSize(n) <= TWO64 && n <= TWO32 && (exists k: nat :: n == Pow2(k))
    && RING in syms && syms[RING] == base
    && 32 + 8 * depth <= m.regs[RSP] &&
         (base + RingSize(n) <= m.regs[RSP] as int - 32 - 8 * depth || m.regs[RSP] <= base)
  }

  lemma CellKept(m: Mem, m': Mem, base: int, i: nat, c: Cell)
    requires CellAt(m, base, i, c) && SameIn(m, m', SlotAt(base, i), SlotAt(base, i) + 16)
    ensures CellAt(m', base, i, c)
  {
    hide Load64;
    Load64Same(m, m', SlotAt(base, i));
    Load64Same(m, m', SlotAt(base, i) + 8);
  }

  lemma RingKept(m: Mem, m': Mem, base: int, r: Ring)
    requires RingAt(m, base, r) && SameIn(m, m', base, base + RingSize(|r.cells|))
    ensures RingAt(m', base, r)
  {
    hide Load, CellAt;
    LoadSame(m, m', base, 4);
    LoadSame(m, m', base + 4, 4);
    LoadSame(m, m', base + 8, 4);
    forall i | 0 <= i < |r.cells|
      ensures CellAt(m', base, i, r.cells[i])
    {
      CellKept(m, m', base, i, r.cells[i]);
    }
  }

  lemma RingIsOk(m: Mem, base: int, r: Ring)
    requires RingAt(m, base, r)
    ensures RingOk(r)
  {
  }

  /** The pair goes to the head slot, the second half from a memory that may differ outside the ring, and a word
      goes to the head. */
  lemma HeadStored(a: Mem, b: Mem, base: int, r: Ring, c: Cell, v: nat)
    requires RingAt(a, base, r) && |r.cells| <= TWO32
    requires SameIn(Store64(a, SlotAt(base, r.head), c.0), b, base, base + RingSize(|r.cells|))
    ensures var m2 := Store64(b, SlotAt(base, r.head) + 8, c.1);
            var m3 := Store(m2, base, 4, v);
            && RingWith(m3, base, v % TWO32, r.(cells := r.cells[r.head := c]))
            && SameOutside(b, m3, base, base + RingSize(|r.cells|))
  {
    hide Load, Load64, Store, Store64;
    var s := SlotAt(base, r.head);
    var m1 := Store64(a, s, c.0);
    var m2 := Store64(b, s + 8, c.1);
    var m3 := Store(m2, base, 4, v);
    LoadStore64(a, s, c.0);
    LoadStore64(b, s + 8, c.1);
    Word4Wraps(m2, base, v);
    Load64Same(m1, m3, s);
    Load64Same(m2, m3, s + 8);
    LoadSame(a, m3, base + 4, 4);
    LoadSame(a, m3, base + 8, 4);
    var cells := r.cells[r.head := c];
    forall i | 0 <= i < |cells|
      ensures CellAt(m3, base, i, cells[i])
    {
      if i != r.head {
        CellKept(a, m3, base, i, r.cells[i]);
      }
    }
  }

  lemma Word4Wraps(m: Mem, a: int, v: nat)
    ensures Load(Store(m, a, 4, v), a, 4) == v % TWO32 && SameOutside(m, Store(m, a, 4, v), a, a + 4)
  {
    LoadStoreSame(m, a, 4, v);
    Pow256At();
    StoreFrame(m, a, 4, v);
  }

  /** Memory that holds the stored pair and head word holds the pushed ring exactly when these are the right ones. */
  lemma PushedIff(m: Mem, base: int, h: nat, r: Ring, c: Cell, want: Cell)
    requires RingOk(r) && RingWith(m, base, h, r.(cells := r.cells[r.head := c]))
    ensures RingAt(m, base, Ring(Following(r.head, |r.cells|), r.tail, r.cells[r.head := want])) <==>
            h == Following(r.head, |r.cells|) && c == want
  {
    hide Load, Load64;
    var cells, wanted := r.cells[r.head := c], r.cells[r.head := want];
    assert CellAt(m, base, r.head, cells[r.head]);
    if c != want {
      assert !CellAt(m, base, r.head, wanted[r.head]);
    }
  }

  lemma NextIsMasked(p: nat, n: nat)
    requires p < n <= TWO32 && exists k: nat :: n == Pow2(k)
    ensures AluResult(AND, p + 1, n - 1) == Following(p, n)
  {
    var k: nat :| n == Pow2(k);
    MaskedIsModulo(p, n, k);
  }

  lemma MaskIsModulo(x: Word, n: nat)
    requires 0 < n <= TWO32 && exists k: nat :: n == Pow2(k)
    ensures AluResult(AND, x, n - 1) == x % n
  {
    var k: nat :| n == Pow2(k);
    AndMask(x, k);
  }

  // ---- the header, byte by byte ----

  /** The eight bytes of head and tail. */
  function Header(h: nat, t: nat): (s: seq<Byte>)
    ensures |s| == 8
  {
    LE(h, 4) + LE(t, 4)
  }

  lemma HeaderIff(m: Mem, base: int, h: nat, t: nat)
    requires h < TWO32 && t < TWO32
    ensures Load(m, base, 4) == h && Load(m, base + 4, 4) == t <==> ReadBytes(m, base, 8) == Header(h, t)
  {
    hide LE, FromLE;
    WordIff(m, base, h);
    WordIff(m, base + 4, t);
    var s := ReadBytes(m, base, 8);
    assert s[..4] == ReadBytes(m, base, 4) && s[4..] == ReadBytes(m, base + 4, 4) && s == s[..4] + s[4..];
    assert Header(h, t)[..4] == LE(h, 4) && Header(h, t)[4..] == LE(t, 4);
  }

  lemma WordIff(m: Mem, a: int, v: nat)
    requires v < TWO32
    ensures Load(m, a, 4) == v <==> ReadBytes(m, a, 4) == LE(v, 4)
  {
    hide LE, FromLE;
    LE4(v);
    LEOfFromLE(ReadBytes(m, a, 4));
  }

  /** The four bytes of v, written to address `a`, turn the header of the ring into that of the popped ring. */
  predicate TailWritten(r: Ring, base: int, a: int, v: nat)
    requires RingOk(r)
  {
    base < a <= base + 4 &&
    var k := a - base;
    var was := Header(r.head, r.tail);
    was[..k] + LE(v, 4) + was[k + 4..] == Header(r.head, Following(r.tail, |r.cells|))
  }

  lemma LowByteMoves(t: nat, n: nat)
    requires t < n && n >= 2 && exists k: nat :: n == Pow2(k)
    ensures t % 256 != Following(t, n) % 256
  {
    var k: nat :| n == Pow2(k);
    assert Pow2(0) == 1 && n == 2 * Pow2(k - 1);
  }

  lemma FirstByte(h: nat, t: nat)
    ensures Header(h, t)[4] == t % 256
  {
  }

  /** After the store of a tail word anywhere, memory holds the popped ring exactly when the store turned the
      old header into the new one: at its place, or overlapping it in a way that comes to the same. */
  lemma PoppedIff(m: Mem, base: int, r: Ring, a: int, v: nat)
    requires RingAt(m, base, r) && |r.cells| <= TWO32 && exists k: nat :: |r.cells| == Pow2(k)
    ensures RingAt(Store(m, a, 4, v), base, r.(tail := Following(r.tail, |r.cells|))) <==> TailWritten(r, base, a, v)
    ensures TailWritten(r, base, a, v) ==> SameOutside(m, Store(m, a, 4, v), base, base + 8)
  {
    hide Load, Store, Header, CellAt;
    var m1, next := Store(m, a, 4, v), Following(r.tail, |r.cells|);
    HeaderIff(m, base, r.head, r.tail);
    HeaderIff(m1, base, r.head, next);
    StoreFrame(m, a, 4, v);
    StoredBytes(m, base, a, v);
    LowByteMoves(r.tail, |r.cells|);
    FirstByte(r.head, r.tail);
    FirstByte(r.head, next);
    if base < a <= base + 4 {
      LoadSame(m, m1, base + 8, 4);
      forall i | 0 <= i < |r.cells|
        ensures CellAt(m1, base, i, r.cells[i])
      {
        CellKept(m, m1, base, i, r.cells[i]);
      }
    } else {
      assert ReadBytes(m1, base, 8)[4] == ReadBytes(m, base, 8)[4];
    }
  }

  lemma StoredBytes(m: Mem, base: int, a: int, v: nat)
    ensures var was, now := ReadBytes(m, base, 8), ReadBytes(Store(m, a, 4, v), base, 8);
            && (base < a <= base + 4 ==> now == was[..a - base] + LE(v, 4) + was[a - base + 4..])
            && (!(base < a <= base + 4) ==> now[4] == was[4])
  {
    hide LE;
    var now := ReadBytes(Store(m, a, 4, v), base, 8);
    forall i | 0 <= i < 8
      ensures now[i] == if a <= base + i < a + 4 then LE(v, 4)[base + i - a] else Rd(m, base + i)
    {
      RdWrite(m, a, LE(v, 4), base + i);
    }
  }

  /** A tail word at its place. */
  lemma TailAtPlace(r: Ring, base: int)
    requires RingOk(r)
    ensures TailWritten(r, base, base + 4, Following(r.tail, |r.cells|))
  {
    hide LE;
  }
}
