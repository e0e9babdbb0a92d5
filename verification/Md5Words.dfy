// The 32-bit words of md5/md5.h: arithmetic modulo 2^32, the four auxiliary functions and rotation.
module Md5Words {

  const WORDS: nat := 0x1_0000_0000

  type uint8 = x: int | 0 <= x < 0x100
  type uint32 = x: int | 0 <= x < 0x1_0000_0000

  function Add(x: uint32, y: uint32): uint32 {
    (x + y) % WORDS
  }

  function Sub(x: uint32, y: uint32): uint32 {
    (x - y) % WORDS
  }

  // ----- The bit operations

  datatype Op = AND | OR | XOR

  function Bit(op: Op, a: int, b: int): (c: nat)
    ensures c < 2
  {
    match op
    case AND => if a == 1 && b == 1 then 1 else 0
    case OR => if a == 1 || b == 1 then 1 else 0
    case XOR => if a != b then 1 else 0
  }

  // The operation on the n low-order bits.
  function Bits(op: Op, x: nat, y: nat, n: nat): (z: nat)
    ensures z < Pow2(n)
    decreases n
  {
    if n == 0 then 0 else Bit(op, x % 2, y % 2) + 2 * Bits(op, x / 2, y / 2, n - 1)
  }

  function Width(): (n: nat)
    ensures n == 32 && Pow2(n) == WORDS
  {
    Pow32();
    32
  }

  function And(x: uint32, y: uint32): uint32 {
    Bits(AND, x, y, Width())
  }

  function Or(x: uint32, y: uint32): uint32 {
    Bits(OR, x, y, Width())
  }

  function Xor(x: uint32, y: uint32): uint32 {
    Bits(XOR, x, y, Width())
  }

  function Not(x: uint32): uint32 {
    WORDS - 1 - x
  }

  function F(x: uint32, y: uint32, z: uint32): uint32 {
    Or(And(x, y), And(Not(x), z))
  }

  function G(x: uint32, y: uint32, z: uint32): uint32 {
    Or(And(x, z), And(y, Not(z)))
  }

  function H(x: uint32, y: uint32, z: uint32): uint32 {
    Xor(Xor(x, y), z)
  }

  function I(x: uint32, y: uint32, z: uint32): uint32 {
    Xor(y, Or(x, Not(z)))
  }

  function Pow2(n: nat): (p: nat)
    ensures p > 0
  {
    if n == 0 then 1 else 2 * Pow2(n - 1)
  }

  function ShiftLeft(x: uint32, n: nat): uint32 {
    (x * Pow2(n)) % WORDS
  }

  function ShiftRight(x: uint32, n: nat): (z: uint32)
    ensures z == x / Pow2(n)
  {
    QuotientBelow(x, Pow2(n));
    x / Pow2(n)
  }

  lemma QuotientBelow(x: nat, p: nat)
    requires p > 0
    ensures 0 <= x / p <= x
  {
    DivideMod(x, p);
    MulMonotone(1, p, x / p);
  }

  function RotateLeft(x: uint32, n: nat): uint32
    requires n <= 32
  {
    Or(ShiftLeft(x, n), ShiftRight(x, 32 - n))
  }

  lemma {:induction false} PowSplit(n: nat, m: nat)
    ensures Pow2(n) * Pow2(m) == Pow2(n + m)
  {
    if n > 0 {
      PowSplit(n - 1, m);
      assert Pow2(n) * Pow2(m) == 2 * (Pow2(n - 1) * Pow2(m));
    }
  }

  lemma WordPow(n: nat)
    requires n <= 32
    ensures Pow2(n) * Pow2(32 - n) == WORDS
  {
    PowSplit(n, 32 - n);
    Pow32();
  }

  lemma Pow32()
    ensures Pow2(32) == WORDS
  {
    PowSplit(4, 4);
    PowSplit(8, 8);
    PowSplit(16, 16);
  }

  lemma MulMonotone(a: nat, b: nat, c: nat)
    requires a <= b
    ensures a * c <= b * c
  {
  }

  lemma DivideMod(x: nat, q: nat)
    requires q > 0
    ensures x == (x / q) * q + x % q && 0 <= x % q < q && x / q >= 0
  {
  }

  lemma HighBelow(x: nat, p: nat, q: nat, high: nat, low: nat)
    requires x == high * q + low && x < p * q
    ensures high < p
  {
    if high >= p {
      MulMonotone(p, high, q);
    }
  }

  lemma PartsFit(p: nat, q: nat, high: nat, low: nat)
    requires high < p && low < q
    ensures low * p + high < q * p
  {
    MulMonotone(low, q - 1, p);
    assert (q - 1) * p == q * p - p;
  }

  lemma MulNext(a: nat, b: nat, c: nat)
    requires a < b
    ensures a * c + c <= b * c
  {
    MulMonotone(a + 1, b, c);
  }

  lemma DivideUnique(x: nat, p: nat, a: nat, b: nat)
    requires p > 0 && b < p && x == a * p + b
    ensures x / p == a && x % p == b
  {
    DivideMod(x, p);
    if x / p > a {
      MulNext(a, x / p, p);
    } else if x / p < a {
      MulNext(x / p, a, p);
    }
  }

  lemma Distribute(a: nat, b: nat, c: nat, d: nat)
    ensures (a * b + c) * d == a * (d * b) + c * d
  {
  }

  lemma ProductMod(x: nat, y: nat, high: nat, w: nat)
    requires w > 0 && x == high * w + y && y < w
    ensures x % w == y
  {
    DivideUnique(x, w, high, y);
  }

  lemma LowTimes(x: nat, p: nat, q: nat)
    requires p > 0 && q > 0
    ensures (x % q) * p < q * p
    ensures x * p == (x / q) * (p * q) + (x % q) * p
  {
    DivideMod(x, q);
    PartsFit(p, q, 0, x % q);
    Distribute(x / q, q, x % q, p);
  }

  lemma ShiftMod(x: nat, p: nat, q: nat, w: nat)
    requires p > 0 && q > 0 && w == p * q
    ensures (x * p) % w == (x % q) * p
  {
    LowTimes(x, p, q);
    ProductMod(x * p, (x % q) * p, x / q, w);
  }

  // x << n, modulo 2^32, keeps the low bits only.
  lemma ShiftKeepsLow(x: uint32, n: nat)
    requires n <= 32
    ensures (x * Pow2(n)) % WORDS == (x % Pow2(32 - n)) * Pow2(n)
  {
    WordPow(n);
    ShiftMod(x, Pow2(n), Pow2(32 - n), WORDS);
  }

  // ----- "Or" of words without a common bit is their sum

  lemma {:induction false} BitsZero(y: nat, n: nat)
    requires y < Pow2(n)
    ensures Bits(OR, 0, y, n) == y
    decreases n
  {
    if n > 0 {
      BitsZero(y / 2, n - 1);
    }
  }

  lemma {:induction false} BitsCommute(op: Op, x: nat, y: nat, n: nat)
    ensures Bits(op, x, y, n) == Bits(op, y, x, n)
    decreases n
  {
    if n > 0 {
      BitsCommute(op, x / 2, y / 2, n - 1);
    }
  }

  lemma {:induction false} BitsSum(x: nat, y: nat, k: nat, n: nat)
    requires k <= n && x < Pow2(k) && y * Pow2(k) < Pow2(n)
    ensures Bits(OR, x, y * Pow2(k), n) == x + y * Pow2(k)
    decreases n
  {
    if k == 0 {
      BitsZero(y, n);
    } else {
      var half := y * Pow2(k - 1);
      Double(y, Pow2(k - 1));
      BitsSum(x / 2, y, k - 1, n - 1);
    }
  }

  lemma Double(y: nat, p: nat)
    ensures y * (2 * p) == 2 * (y * p)
  {
  }

  lemma OrSum(x: uint32, y: nat, k: nat, high: uint32)
    requires k <= 32 && x < Pow2(k) && high == y * Pow2(k)
    ensures Or(x, high) == x + high && Or(high, x) == x + high
  {
    hide Width, Bits, Pow2;
    BitsSum(x, y, k, Width());
    BitsCommute(OR, x, high, Width());
  }

  // The 32 - n low bits move up and the n high bits come round.
  lemma RotateLeftIs(x: uint32, n: nat)
    requires n <= 32
    ensures RotateLeft(x, n) == (x % Pow2(32 - n)) * Pow2(n) + x / Pow2(32 - n)
  {
    var q := Pow2(32 - n);
    WordPow(n);
    DivideMod(x, q);
    HighBelow(x, Pow2(n), q, x / q, x % q);
    ShiftKeepsLow(x, n);
    OrSum(x / q, x % q, n, (x % q) * Pow2(n));
  }

  // ----- "And" with a mask of low-order ones is the remainder

  function Rest(x: nat, p: nat): nat
    requires p > 0
  {
    x % p
  }

  lemma RestHalf(x: nat, p: nat)
    requires p > 0
    ensures Rest(x, 2 * p) == x % 2 + 2 * Rest(x / 2, p)
  {
    var h := x / 2;
    DivideMod(h, p);
    Distribute(h / p, p, h % p, 2);
    DivideUnique(x, 2 * p, h / p, x % 2 + 2 * (h % p));
  }

  lemma {:induction false} BitsNone(x: nat, n: nat)
    ensures Bits(AND, x, 0, n) == 0
    decreases n
  {
    if n > 0 {
      BitsNone(x / 2, n - 1);
    }
  }

  lemma MaskNone(x: nat, n: nat)
    ensures Bits(AND, x, Pow2(0) - 1, n) == Rest(x, Pow2(0))
  {
    hide Bits;
    BitsNone(x, n);
  }

  lemma MaskStep(k: nat)
    requires k > 0
    ensures (Pow2(k) - 1) % 2 == 1 && (Pow2(k) - 1) / 2 == Pow2(k - 1) - 1
  {
  }

  lemma {:induction false} BitsMask(x: nat, k: nat, n: nat)
    requires k <= n
    ensures Bits(AND, x, Pow2(k) - 1, n) == Rest(x, Pow2(k))
    decreases n
  {
    hide Pow2, Bits, Rest;
    if k == 0 {
      MaskNone(x, n);
    } else {
      BitsMask(x / 2, k - 1, n - 1);
      MaskStep(k);
      MaskedBit(x, Pow2(k) - 1, n);
      RestHalf(x, Pow2(k - 1));
      PowNext(k);
    }
  }

  lemma MaskedBit(x: nat, mask: nat, n: nat)
    requires n > 0 && mask % 2 == 1
    ensures Bits(AND, x, mask, n) == x % 2 + 2 * Bits(AND, x / 2, mask / 2, n - 1)
  {
  }

  lemma PowNext(k: nat)
    requires k > 0
    ensures Pow2(k) == 2 * Pow2(k - 1)
  {
  }

  lemma AndMask(x: uint32, k: nat)
    requires k <= 32
    ensures Pow2(k) <= WORDS && And(x, Pow2(k) - 1) == x % Pow2(k)
  {
    hide Width, Bits;
    WordPow(k);
    MulMonotone(1, Pow2(32 - k), Pow2(k));
    BitsMask(x, k, Width());
  }

  // Rotating by n and then by 32 - n turns the word all the way round.
  lemma RotateBack(x: uint32, n: nat)
    requires n <= 32
    ensures RotateLeft(RotateLeft(x, n), 32 - n) == x
  {
    hide RotateLeft;
    var p, q := Pow2(n), Pow2(32 - n);
    WordPow(n);
    DivideMod(x, q);
    HighBelow(x, p, q, x / q, x % q);
    RotateLeftIs(x, n);
    DivideUnique(RotateLeft(x, n), p, x % q, x / q);
    RotateLeftIs(RotateLeft(x, n), 32 - n);
  }

  lemma AddSub(x: uint32, y: uint32)
    ensures Sub(Add(x, y), y) == x
    ensures Add(Sub(x, y), y) == x
  {
  }

  lemma AddAssoc(x: uint32, y: uint32, z: uint32)
    ensures Add(Add(x, y), z) == Add(x, Add(y, z))
    ensures Add(x, y) == Add(y, x)
  {
  }
}
