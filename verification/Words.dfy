/** 64-bit words, little-endian bytes, bitwise operators on naturals, and byte memory. */
module Words {
  const TWO64: int := 0x1_0000_0000_0000_0000
  const TWO63: int := 0x8000_0000_0000_0000
  const TWO32: int := 0x1_0000_0000
  const TWO31: int := 0x8000_0000

  type Byte = b: int | 0 <= b < 256
  type Word = w: int | 0 <= w < TWO64
  type Int32 = i: int | -0x8000_0000 <= i < 0x8000_0000

  /** The `& ((1 << 64) - 1)` of the encoder and the wrap-around of the ALU. */
  function Wrap(x: int): Word {
    x % TWO64
  }

  function Signed(w: Word): int {
    if w < TWO63 then w else w - TWO64
  }

  predicate FitsSigned64(x: int) {
    -TWO63 <= x < TWO63
  }

  predicate FitsInt32(x: int) {
    -TWO31 <= x < TWO31
  }

  function Pow2(n: nat): (p: nat)
    ensures p > 0
  {
    if n == 0 then 1 else 2 * Pow2(n - 1)
  }

  lemma {:induction false} Pow2Add(a: nat, b: nat)
    ensures Pow2(a + b) == Pow2(a) * Pow2(b)
  {
    if a == 0 {
    } else {
      Pow2Add(a - 1, b);
      assert 2 * (Pow2(a - 1) * Pow2(b)) == (2 * Pow2(a - 1)) * Pow2(b);
    }
  }

  lemma Pow2At()
    ensures Pow2(16) == 0x1_0000 && Pow2(32) == TWO32 && Pow2(64) == TWO64 && Pow2(65) == 2 * TWO64
  {
    assert Pow2(8) == 256;
    Pow2Add(8, 8);
    Pow2Add(16, 16);
    Pow2Add(32, 32);
  }

  // ---- modular arithmetic ----

  lemma MulGrows(k: int, d: int)
    requires d > 0
    ensures k >= 1 ==> k * d >= d
    ensures k <= -1 ==> k * d <= -d
  {
  }

  lemma DivModUnique(x: int, d: int, q: int, r: int)
    requires d > 0 && 0 <= r < d && x == q * d + r
    ensures x / d == q && x % d == r
  {
    var q', r' := x / d, x % d;
    assert x == q' * d + r';
    assert (q - q') * d == r' - r;
    MulGrows(q - q', d);
  }

  lemma WrapShift(x: int, k: int)
    ensures Wrap(x + k * TWO64) == Wrap(x)
  {
    DivModUnique(x + k * TWO64, TWO64, x / TWO64 + k, Wrap(x));
  }

  lemma WrapAdd(a: int, b: int)
    ensures Wrap(Wrap(a) + Wrap(b)) == Wrap(a + b)
    ensures Wrap(Wrap(a) - Wrap(b)) == Wrap(a - b)
  {
    var qa, qb := a / TWO64, b / TWO64;
    WrapShift(Wrap(a) + Wrap(b), qa + qb);
    WrapShift(Wrap(a) - Wrap(b), qa - qb);
  }

  lemma WrapMul(a: int, b: int)
    ensures Wrap(Wrap(a) * Wrap(b)) == Wrap(a * b)
  {
    var qa, qb, ra, rb := a / TWO64, b / TWO64, Wrap(a), Wrap(b);
    var k := qa * b + ra * qb;
    calc {
      a * b;
      (qa * TWO64 + ra) * b;
      qa * b * TWO64 + ra * (qb * TWO64 + rb);
      { assert ra * (qb * TWO64 + rb) == ra * qb * TWO64 + ra * rb; }
      ra * rb + k * TWO64;
    }
    WrapShift(ra * rb, k);
  }

  // ---- little-endian byte strings ----

  function LE(v: nat, n: nat): (s: seq<Byte>)
    ensures |s| == n
  {
    if n == 0 then [] else [v % 256] + LE(v / 256, n - 1)
  }

  function FromLE(s: seq<Byte>): nat {
    if s == [] then 0 else s[0] + 256 * FromLE(s[1..])
  }

  function Pow256(n: nat): (p: nat)
    ensures p > 0
  {
    if n == 0 then 1 else 256 * Pow256(n - 1)
  }

  lemma {:induction false} LERoundTrip(v: nat, n: nat)
    ensures FromLE(LE(v, n)) == v % Pow256(n)
  {
    if n == 0 {
    } else {
      LERoundTrip(v / 256, n - 1);
      var p := Pow256(n - 1);
      assert LE(v, n)[1..] == LE(v / 256, n - 1);
      ModSplit(v, p);
    }
  }

  lemma ModSplit(v: nat, p: nat)
    requires p > 0
    ensures v % (256 * p) == v % 256 + 256 * ((v / 256) % p)
  {
    var q, r := (v / 256) / p, (v / 256) % p;
    assert v / 256 == q * p + r;
    assert v == 256 * (q * p + r) + v % 256;
    assert v == q * (256 * p) + (256 * r + v % 256);
    assert 256 * r + v % 256 < 256 * p;
    DivModUnique(v, 256 * p, q, 256 * r + v % 256);
  }

  lemma {:induction false} FromLEBound(s: seq<Byte>)
    ensures FromLE(s) < Pow256(|s|)
  {
    if s != [] {
      FromLEBound(s[1..]);
    }
  }

  /** A byte string is determined by its value and length. */
  lemma {:induction false} LEOfFromLE(s: seq<Byte>)
    ensures LE(FromLE(s), |s|) == s
  {
    if s != [] {
      LEOfFromLE(s[1..]);
      assert FromLE(s) / 256 == FromLE(s[1..]) && FromLE(s) % 256 == s[0];
    }
  }

  lemma Pow256At()
    ensures Pow256(1) == 256 && Pow256(2) == 0x1_0000 && Pow256(4) == TWO32 && Pow256(8) == TWO64
  {
  }

  lemma LE4(v: nat)
    requires v < TWO32
    ensures FromLE(LE(v, 4)) == v
  {
    LERoundTrip(v, 4);
    Pow256At();
  }

  lemma LE8(v: nat)
    requires v < TWO64
    ensures FromLE(LE(v, 8)) == v
  {
    LERoundTrip(v, 8);
    Pow256At();
  }

  /** The 64-bit word at an offset of a byte string. */
  function WordAt(s: seq<Byte>, at: nat): Word
    requires at + 8 <= |s|
  {
    FromLEBound(s[at..at + 8]);
    Pow256At();
    FromLE(s[at..at + 8])
  }

  // ---- bitwise operators on naturals ----

  datatype BitOp = BitAnd | BitOr | BitXor

  function Bit1(op: BitOp, a: nat, b: nat): nat
    requires a < 2 && b < 2
  {
    match op
    case BitAnd => a * b
    case BitOr => a + b - a * b
    case BitXor => (a + b) % 2
  }

  lemma BitBound(op: BitOp, a: nat, b: nat)
    requires a < 2 && b < 2
    ensures 0 <= Bit1(op, a, b) < 2
  {
    assert a == 0 || a == 1;
  }

  function Bitwise(op: BitOp, a: nat, b: nat): nat
    decreases a + b
  {
    if a == 0 && b == 0 then 0
    else Bit1(op, a % 2, b % 2) + 2 * Bitwise(op, a / 2, b / 2)
  }

  lemma {:induction false} BitwiseBound(op: BitOp, a: nat, b: nat, n: nat)
    requires a < Pow2(n) && b < Pow2(n)
    ensures Bitwise(op, a, b) < Pow2(n)
    decreases n
  {
    if n > 0 {
      assert a / 2 < Pow2(n - 1) && b / 2 < Pow2(n - 1);
      BitwiseBound(op, a / 2, b / 2, n - 1);
      BitBound(op, a % 2, b % 2);
    }
  }

  function Logic(op: BitOp, a: Word, b: Word): Word {
    Pow2At();
    BitwiseBound(op, a, b, 64);
    Bitwise(op, a, b)
  }

  /** Masking with 2^n - 1 is the remainder modulo 2^n. */
  lemma {:induction false} AndMask(a: nat, n: nat)
    ensures Bitwise(BitAnd, a, Pow2(n) - 1) == a % Pow2(n)
    decreases n
  {
    hide Bitwise;
    if n == 0 {
      AndZero(a);
    } else {
      var p := Pow2(n - 1);
      assert Pow2(n) == 2 * p;
      assert (2 * p - 1) / 2 == p - 1 && (2 * p - 1) % 2 == 1;
      AndMask(a / 2, n - 1);
      ModSplit2(a, p);
      AndOddMask(a, 2 * p - 1);
    }
  }

  /** A mask with its lowest bit set keeps the lowest bit. */
  lemma {:induction false} AndOddMask(a: nat, m: nat)
    requires m % 2 == 1
    ensures Bitwise(BitAnd, a, m) == a % 2 + 2 * Bitwise(BitAnd, a / 2, m / 2)
  {
    assert a % 2 == 0 || a % 2 == 1;
  }

  lemma {:induction false} AndZero(a: nat)
    ensures Bitwise(BitAnd, a, 0) == 0
  {
    if a > 0 {
      AndZero(a / 2);
    }
  }

  lemma ModSplit2(v: nat, p: nat)
    requires p > 0
    ensures v % (2 * p) == v % 2 + 2 * ((v / 2) % p)
  {
    var q, r := (v / 2) / p, (v / 2) % p;
    assert v / 2 == q * p + r;
    assert v == q * (2 * p) + (2 * r + v % 2);
    DivModUnique(v, 2 * p, q, 2 * r + v % 2);
  }

  // ---- truncating division ----

  /** Division rounding toward zero, as `idiv` does (Dafny's own rounds down for d > 0). */
  function TruncDiv(a: int, d: int): int
    requires d != 0
  {
    if (a >= 0) == (d > 0) then Abs(a) / Abs(d) else -(Abs(a) / Abs(d))
  }

  function TruncMod(a: int, d: int): int
    requires d != 0
  {
    if a >= 0 then Abs(a) % Abs(d) else -(Abs(a) % Abs(d))
  }

  function Abs(x: int): nat {
    if x < 0 then -x else x
  }

  /** The defining property: a == q*d + r, |r| < |d|, and r has the sign of a. */
  lemma TruncDivMod(a: int, d: int)
    requires d != 0
    ensures a == TruncDiv(a, d) * d + TruncMod(a, d)
    ensures Abs(TruncMod(a, d)) < Abs(d)
    ensures TruncMod(a, d) != 0 ==> (TruncMod(a, d) > 0 <==> a > 0)
    ensures Abs(TruncDiv(a, d)) <= Abs(a)
  {
    var x, y := Abs(a), Abs(d);
    DivAlgorithm(x, y);
    var q, r := x / y, x % y;
    QuotientBound(q, y, r);
    SignOfProduct(q, y);
    TruncCases(a, d, q, r);
  }

  lemma TruncCases(a: int, d: int, q: int, r: int)
    requires d != 0 && Abs(a) == q * Abs(d) + r
    ensures a == (if (a >= 0) == (d > 0) then q else -q) * d + (if a >= 0 then r else -r)
  {
    SignOfProduct(q, d);
  }

  lemma DivAlgorithm(x: nat, y: nat)
    requires y > 0
    ensures x == (x / y) * y + x % y && 0 <= x % y < y && x / y >= 0
  {
  }

  lemma QuotientBound(q: nat, y: nat, r: nat)
    requires y > 0
    ensures q <= q * y + r
  {
    assert q * y >= q;
  }

  lemma SignOfProduct(q: int, y: int)
    ensures q * y == (-q) * (-y) && (-q) * y == -(q * y) && q * (-y) == -(q * y)
  {
  }

  lemma {:induction false} AndSelf(n: nat)
    ensures Bitwise(BitAnd, n, n) == n
  {
    if n > 0 {
      AndSelf(n / 2);
      assert n % 2 == 0 || n % 2 == 1;
    }
  }

  lemma {:induction false} OrSelf(n: nat)
    ensures Bitwise(BitOr, n, n) == n
  {
    if n > 0 {
      OrSelf(n / 2);
      assert n % 2 == 0 || n % 2 == 1;
    }
  }

  lemma {:induction false} XorSelf(n: nat)
    ensures Bitwise(BitXor, n, n) == 0
  {
    if n > 0 {
      XorSelf(n / 2);
    }
  }

  lemma {:induction false} XorZeroIff(a: nat, b: nat)
    ensures Bitwise(BitXor, a, b) == 0 <==> a == b
    decreases a + b
  {
    if a != 0 || b != 0 {
      XorZeroIff(a / 2, b / 2);
      assert a % 2 == 0 || a % 2 == 1;
      assert b % 2 == 0 || b % 2 == 1;
    }
  }

  /** xor with the same number tells numbers apart. */
  lemma {:induction false} XorCancel(a: nat, b: nat, v: nat)
    ensures Bitwise(BitXor, a, v) == Bitwise(BitXor, b, v) <==> a == b
    decreases a + b + v
  {
    if a + b + v > 0 {
      XorCancel(a / 2, b / 2, v / 2);
      assert a % 2 == 0 || a % 2 == 1;
      assert b % 2 == 0 || b % 2 == 1;
      assert v % 2 == 0 || v % 2 == 1;
    }
  }

  lemma SmallMod(v: nat, p: nat)
    requires v < p
    ensures v % p == v
  {
  }
}
