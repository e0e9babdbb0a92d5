// The auxiliary functions of section 3.4 of RFC 1321, bit by bit.
module Md5Bits {

  import opened Md5Words
  import opened Md5Rounds

  // Bit k of a word, the low-order one first.
  function BitAt(w: nat, k: nat): (b: nat)
    ensures b < 2
  {
    (w / Pow2(k)) % 2
  }

  lemma HalfQuotient(x: nat, p: nat)
    requires p > 0
    ensures x / (2 * p) == (x / 2) / p
  {
    var h := x / 2;
    DivideMod(h, p);
    Distribute(h / p, p, h % p, 2);
    DivideUnique(x, 2 * p, h / p, x % 2 + 2 * (h % p));
  }

  lemma BitFirst(w: nat)
    ensures BitAt(w, 0) == w % 2
  {
  }

  lemma BitNext(w: nat, k: nat)
    requires k > 0
    ensures BitAt(w, k) == BitAt(w / 2, k - 1)
  {
    HalfQuotient(w, Pow2(k - 1));
  }

  lemma BitsHalf(op: Op, x: nat, y: nat, n: nat)
    requires n > 0
    ensures Bits(op, x, y, n) % 2 == Bit(op, x % 2, y % 2)
    ensures Bits(op, x, y, n) / 2 == Bits(op, x / 2, y / 2, n - 1)
  {
  }

  lemma {:induction false} BitsAt(op: Op, x: nat, y: nat, n: nat, k: nat)
    requires k < n
    ensures BitAt(Bits(op, x, y, n), k) == Bit(op, BitAt(x, k), BitAt(y, k))
    decreases k
  {
    hide Bits, BitAt, Bit;
    BitsHalf(op, x, y, n);
    if k == 0 {
      BitFirst(x);
      BitFirst(y);
      BitFirst(Bits(op, x, y, n));
    } else {
      BitNext(x, k);
      BitNext(y, k);
      BitNext(Bits(op, x, y, n), k);
      BitsAt(op, x / 2, y / 2, n - 1, k - 1);
    }
  }

  lemma ComplementHalf(x: nat, n: nat)
    requires n > 0 && x < Pow2(n)
    ensures x / 2 < Pow2(n - 1)
    ensures (Pow2(n) - 1 - x) % 2 == 1 - x % 2 && (Pow2(n) - 1 - x) / 2 == Pow2(n - 1) - 1 - x / 2
  {
    MaskStep(n);
  }

  lemma {:induction false} ComplementBit(x: nat, n: nat, k: nat)
    requires k < n && x < Pow2(n)
    ensures BitAt(Pow2(n) - 1 - x, k) == 1 - BitAt(x, k)
    decreases k
  {
    hide BitAt, Pow2;
    ComplementHalf(x, n);
    if k == 0 {
      BitFirst(x);
      BitFirst(Pow2(n) - 1 - x);
    } else {
      BitNext(x, k);
      BitNext(Pow2(n) - 1 - x, k);
      ComplementBit(x / 2, n - 1, k - 1);
    }
  }

  // And, or, exclusive or and complement, on every bit.
  lemma WordBits(x: uint32, y: uint32, k: nat)
    requires k < 32
    ensures BitAt(And(x, y), k) == (if BitAt(x, k) == 1 && BitAt(y, k) == 1 then 1 else 0)
    ensures BitAt(Or(x, y), k) == (if BitAt(x, k) == 1 || BitAt(y, k) == 1 then 1 else 0)
    ensures BitAt(Xor(x, y), k) == (BitAt(x, k) + BitAt(y, k)) % 2
    ensures BitAt(Not(x), k) == 1 - BitAt(x, k)
  {
    hide Bits, BitAt, Width;
    BitsAt(AND, x, y, Width(), k);
    BitsAt(OR, x, y, Width(), k);
    BitsAt(XOR, x, y, Width(), k);
    ComplementBit(x, Width(), k);
  }

  // F chooses y or z by x.
  lemma FBits(x: uint32, y: uint32, z: uint32, k: nat)
    requires k < 32
    ensures BitAt(F(x, y, z), k) == if BitAt(x, k) == 1 then BitAt(y, k) else BitAt(z, k)
  {
    hide BitAt, And, Or, Not;
    WordBits(x, y, k);
    WordBits(Not(x), z, k);
    WordBits(And(x, y), And(Not(x), z), k);
  }

  // G chooses x or y by z.
  lemma GBits(x: uint32, y: uint32, z: uint32, k: nat)
    requires k < 32
    ensures BitAt(G(x, y, z), k) == if BitAt(z, k) == 1 then BitAt(x, k) else BitAt(y, k)
  {
    hide BitAt, And, Or, Not;
    WordBits(x, z, k);
    WordBits(z, z, k);
    WordBits(y, Not(z), k);
    WordBits(And(x, z), And(y, Not(z)), k);
  }

  // H is the parity.
  lemma HBits(x: uint32, y: uint32, z: uint32, k: nat)
    requires k < 32
    ensures BitAt(H(x, y, z), k) == (BitAt(x, k) + BitAt(y, k) + BitAt(z, k)) % 2
  {
    hide BitAt, Xor;
    XorBits(x, y, k);
    XorBits(Xor(x, y), z, k);
    ParitySum(BitAt(x, k), BitAt(y, k), BitAt(z, k));
  }

  lemma XorBits(x: uint32, y: uint32, k: nat)
    requires k < 32
    ensures BitAt(Xor(x, y), k) == (BitAt(x, k) + BitAt(y, k)) % 2
  {
    hide BitAt, And, Or, Xor, Not;
    WordBits(x, y, k);
  }

  lemma ParitySum(a: nat, b: nat, c: nat)
    ensures ((a + b) % 2 + c) % 2 == (a + b + c) % 2
  {
  }

  // I toggles y where x is set or z is clear.
  lemma IBits(x: uint32, y: uint32, z: uint32, k: nat)
    requires k < 32
    ensures BitAt(I(x, y, z), k) == (BitAt(y, k) + if BitAt(x, k) == 1 || BitAt(z, k) == 0 then 1 else 0) % 2
  {
    hide BitAt, Or, Xor, Not;
    WordBits(z, z, k);
    WordBits(x, Not(z), k);
    WordBits(y, Or(x, Not(z)), k);
  }

  // What step i mixes into its sum, on every bit.
  lemma MixBits(i: nat, x: uint32, y: uint32, z: uint32, k: nat)
    requires i < 64 && k < 32
    ensures
      var a, b, c := BitAt(x, k), BitAt(y, k), BitAt(z, k);
      BitAt(Mix(i, x, y, z), k) ==
        if i < 16 then (if a == 1 then b else c)
        else if i < 32 then (if c == 1 then a else b)
        else if i < 48 then (a + b + c) % 2
        else (b + if a == 1 || c == 0 then 1 else 0) % 2
  {
    hide BitAt, F, G, H, I;
    FBits(x, y, z, k);
    GBits(x, y, z, k);
    HBits(x, y, z, k);
    IBits(x, y, z, k);
  }
}
