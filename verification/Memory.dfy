/** Byte-addressed memory. Cells never written read as zero. */
module Memory {
  import opened Words

  type Mem = map<int, Byte>

  function Rd(m: Mem, a: int): Byte {
    if a in m then m[a] else 0
  }

  function ReadBytes(m: Mem, a: int, n: nat): (s: seq<Byte>)
    ensures |s| == n
  {
    seq<Byte>(n, i requires 0 <= i < n => Rd(m, a + i))
  }

  function WriteBytes(m: Mem, a: int, s: seq<Byte>): Mem {
    m + map x: int | a <= x < a + |s| :: Placed(s, a, x)
  }

  function Placed(s: seq<Byte>, a: int, x: int): Byte
    requires a <= x < a + |s|
  {
    s[x - a]
  }

  function Load(m: Mem, a: int, n: nat): nat {
    FromLE(ReadBytes(m, a, n))
  }

  function Store(m: Mem, a: int, n: nat, v: nat): Mem {
    WriteBytes(m, a, LE(v, n))
  }

  function Load64(m: Mem, a: int): Word {
    FromLEBound(ReadBytes(m, a, 8));
    Pow256At();
    Load(m, a, 8)
  }

  function Store64(m: Mem, a: int, v: Word): Mem {
    Store(m, a, 8, v)
  }

  /** Every byte at or above `lo` is the same in both memories. */
  ghost predicate SameFrom(m: Mem, m': Mem, lo: int) {
    forall a | a >= lo :: Rd(m, a) == Rd(m', a)
  }

  /** Every byte of [lo, hi) is the same in both memories. */
  ghost predicate SameIn(m: Mem, m': Mem, lo: int, hi: int) {
    forall a | lo <= a < hi :: Rd(m, a) == Rd(m', a)
  }

  /** Nothing outside [lo, hi) differs. */
  ghost predicate SameOutside(m: Mem, m': Mem, lo: int, hi: int) {
    forall a | a < lo || hi <= a :: Rd(m, a) == Rd(m', a)
  }

  lemma RdWrite(m: Mem, a: int, s: seq<Byte>, x: int)
    ensures Rd(WriteBytes(m, a, s), x) == if a <= x < a + |s| then s[x - a] else Rd(m, x)
  {
  }

  lemma ReadWriteSame(m: Mem, a: int, s: seq<Byte>)
    ensures ReadBytes(WriteBytes(m, a, s), a, |s|) == s
  {
    var w := WriteBytes(m, a, s);
    forall i | 0 <= i < |s|
      ensures ReadBytes(w, a, |s|)[i] == s[i]
    {
      RdWrite(m, a, s, a + i);
    }
  }

  lemma LoadStoreSame(m: Mem, a: int, n: nat, v: nat)
    ensures Load(Store(m, a, n, v), a, n) == v % Pow256(n)
  {
    ReadWriteSame(m, a, LE(v, n));
    LERoundTrip(v, n);
  }

  lemma LoadStore64(m: Mem, a: int, v: Word)
    ensures Load64(Store64(m, a, v), a) == v
    ensures SameOutside(m, Store64(m, a, v), a, a + 8)
  {
    LoadStoreSame(m, a, 8, v);
    Pow256At();
  }

  lemma StoreFrame(m: Mem, a: int, n: nat, v: nat)
    ensures SameOutside(m, Store(m, a, n, v), a, a + n)
  {
  }

  lemma LoadSame(m: Mem, m': Mem, a: int, n: nat)
    requires SameIn(m, m', a, a + n)
    ensures Load(m, a, n) == Load(m', a, n)
  {
    assert ReadBytes(m, a, n) == ReadBytes(m', a, n);
  }

  lemma Load64Same(m: Mem, m': Mem, a: int)
    requires SameIn(m, m', a, a + 8)
    ensures Load64(m, a) == Load64(m', a)
  {
    LoadSame(m, m', a, 8);
  }

  lemma Load64Other(m: Mem, a: int, v: Word, b: int)
    requires b + 8 <= a || a + 8 <= b
    ensures Load64(Store64(m, a, v), b) == Load64(m, b)
  {
    LoadStore64(m, a, v);
    Load64Same(m, Store64(m, a, v), b);
  }
}
