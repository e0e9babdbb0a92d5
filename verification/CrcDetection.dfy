// Which errors the CRC of crc/crc_ccitt.c detects, for messages of every length.
module CrcDetection {

  import opened Gf2
  import opened CrcRegister
  import opened CrcByte
  import opened CrcOrder
  import opened CrcMessage

  // The bits in which two messages of the same length differ.
  function Difference(m: seq<bv8>, m': seq<bv8>): (d: Poly)
    requires |m| == |m'|
    ensures |d| == 8 * |m|
  {
    Xor(MessageBits(m), MessageBits(m'))
  }

  // ----- The CRC is the remainder of polynomial division

  // p is the remainder of the message times x^16, with the preset added at its top, on division by the generator.
  ghost predicate IsRemainder(m: seq<bv8>, p: Poly) {
    && |p| == 16
    && exists q: Poly :: |q| == 8 * |m| && Augmented(Ones(), MessageBits(m)) == Xor(TimesG(q), Zeros(8 * |m|) + p)
  }

  lemma CrcIsRemainder(m: seq<bv8>, p: Poly)
    ensures IsRemainder(m, p) <==> Holds(Register(m), p)
  {
    var s := MessageBits(m);
    Division(Ones(), s);
    MessageHolds(m);
    if IsRemainder(m, p) {
      var q: Poly :| |q| == |s| && Augmented(Ones(), s) == Xor(TimesG(q), Zeros(|s|) + p);
      DivisionUnique(q, p, Quotient(Ones(), s), Remainder(Ones(), s));
    }
    if Holds(Register(m), p) {
      HoldsPoly(Register(m), p, MessageRemainder(m));
    }
  }

  // ----- Undetected errors are the multiples of the generator

  lemma SameRegister(m: seq<bv8>, m': seq<bv8>)
    ensures Crc(m) == Crc(m') <==> Register(m) == Register(m')
  {
  }

  lemma RegisterRemainder(r: bv16, p: Poly, r': bv16, p': Poly)
    requires Holds(r, p) && Holds(r', p')
    ensures r == r' <==> p == p'
  {
    if r == r' {
      HoldsPoly(r, p, p');
    } else if p == p' {
      HoldsRegister(r, r', p);
    }
  }

  lemma SameRemainder(m: seq<bv8>, m': seq<bv8>)
    ensures Register(m) == Register(m') <==> MessageRemainder(m) == MessageRemainder(m')
  {
    MessageHolds(m);
    MessageHolds(m');
    RegisterRemainder(Register(m), MessageRemainder(m), Register(m'), MessageRemainder(m'));
  }

  lemma DifferenceRemainder(m: seq<bv8>, m': seq<bv8>)
    requires |m| == |m'|
    ensures MessageRemainder(m) == MessageRemainder(m') <==> IsZero(Remainder(Zeros(16), Difference(m, m')))
  {
    assert Xor(Ones(), Ones()) == Zeros(16);
    RemainderLinear(Ones(), MessageBits(m), Ones(), MessageBits(m'));
    ZeroDifference(MessageRemainder(m), MessageRemainder(m'));
  }

  lemma TimesGPadded(q: Poly, n: nat)
    ensures TimesG(q + Zeros(n)) == TimesG(q) + Zeros(n)
  {
    forall i: int
      ensures At(q + Zeros(n), i) == At(q, i)
    {
    }
  }

  // x^16 is prime to the generator: if the padded d is a multiple, d is.
  lemma PaddedMultiple(d: Poly, q: Poly)
    requires |q| == |d| && d + Zeros(16) == TimesG(q)
    ensures IsMultiple(d)
  {
    if IsZero(q) {
      assert forall i | 0 <= i < |d| :: d[i] == TimesG(q)[i];
    } else {
      var first, last := ProductSpan(q);
      assert last + 16 < |d|;
      var q' := q[..|q| - 16];
      assert q == q' + Zeros(16);
      TimesGPadded(q', 16);
      assert d == (d + Zeros(16))[..|d|];
    }
  }

  lemma MultiplePadded(d: Poly)
    requires IsMultiple(d)
    ensures exists q: Poly :: |q| == |d| && d + Zeros(16) == TimesG(q)
  {
    if IsZero(d) {
      assert d + Zeros(16) == TimesG(Zeros(|d|));
    } else {
      var q: Poly :| |q| + 16 == |d| && d == TimesG(q);
      TimesGPadded(q, 16);
      assert d + Zeros(16) == TimesG(q + Zeros(16));
    }
  }

  lemma ZeroRemainder(d: Poly)
    ensures IsZero(Remainder(Zeros(16), d)) <==> IsMultiple(d)
  {
    var r, q := Remainder(Zeros(16), d), Quotient(Zeros(16), d);
    Division(Zeros(16), d);
    assert Augmented(Zeros(16), d) == d + Zeros(16);
    if IsZero(r) {
      assert Xor(TimesG(q), Zeros(|d|) + r) == TimesG(q);
      PaddedMultiple(d, q);
    }
    if IsMultiple(d) {
      MultiplePadded(d);
      var q': Poly :| |q'| == |d| && d + Zeros(16) == TimesG(q');
      assert Xor(TimesG(q'), Zeros(|d|) + Zeros(16)) == TimesG(q');
      DivisionUnique(q, r, q', Zeros(16));
    }
  }

  // An error goes undetected exactly when it is a multiple of the generator.
  lemma UndetectedIff(m: seq<bv8>, m': seq<bv8>)
    requires |m| == |m'|
    ensures Crc(m) == Crc(m') <==> IsMultiple(Difference(m, m'))
  {
    SameRegister(m, m');
    SameRemainder(m, m');
    DifferenceRemainder(m, m');
    ZeroRemainder(Difference(m, m'));
  }

  // ----- Errors that are always detected

  lemma ByteFromBits(b: bv8, c: bv8, s: Poly)
    requires IsByte(b, s) && IsByte(c, s)
    ensures b == c
  {
  }

  lemma {:induction false} BitsDetermineMessage(m: seq<bv8>, m': seq<bv8>)
    requires |m| == |m'| && MessageBits(m) == MessageBits(m')
    ensures m == m'
    decreases |m|
  {
    if m != [] {
      var n := |m| - 1;
      assert MessageBits(m[..n]) == MessageBits(m)[..8 * n] == MessageBits(m'[..n]);
      assert ByteBits(m[n]) == MessageBits(m)[8 * n..] == ByteBits(m'[n]);
      BitsDetermineMessage(m[..n], m'[..n]);
      BitsOfByte(m[n]);
      BitsOfByte(m'[n]);
      ByteFromBits(m[n], m'[n], ByteBits(m[n]));
      assert m == m[..n] + [m[n]];
    }
  }

  // A burst: every nonzero error within 16 consecutive bits, wherever it occurs.
  lemma BurstDetected(m: seq<bv8>, m': seq<bv8>, a: nat)
    requires |m| == |m'| && m != m'
    requires forall i | 0 <= i < 8 * |m| && Difference(m, m')[i] :: a <= i < a + 16
    ensures Crc(m) != Crc(m')
  {
    var d := Difference(m, m');
    UndetectedIff(m, m');
    if IsMultiple(d) {
      if IsZero(d) {
        ZeroDifference(MessageBits(m), MessageBits(m'));
        BitsDetermineMessage(m, m');
      } else {
        var q: Poly :| |q| + 16 == |d| && d == TimesG(q);
        assert !IsZero(q);
        var first, last := ProductSpan(q);
      }
    }
  }

  // An odd number of wrong bits.
  lemma OddErrorDetected(m: seq<bv8>, m': seq<bv8>)
    requires |m| == |m'| && Parity(Difference(m, m'))
    ensures Crc(m) != Crc(m')
  {
    var d := Difference(m, m');
    UndetectedIff(m, m');
    if IsMultiple(d) {
      if IsZero(d) {
        ParityZero(d);
      } else {
        var q: Poly :| |q| + 16 == |d| && d == TimesG(q);
        ProductParity(q);
      }
    }
  }

  // The parity of the register after a message is that of the message bits: each byte changes it by its own parity.
  lemma RegisterParity(m: seq<bv8>, b: bv8)
    ensures Parity(MessageRemainder(m)) == Parity(MessageBits(m))
    ensures Parity(MessageRemainder(m + [b])) == (Parity(MessageRemainder(m)) != Parity(ByteBits(b)))
  {
    RemainderParity(m);
    RemainderParity(m + [b]);
    assert (m + [b])[..|m|] == m;
    ParityConcat(MessageBits(m), ByteBits(b));
  }

  lemma RemainderParity(m: seq<bv8>)
    ensures Parity(MessageRemainder(m)) == Parity(MessageBits(m))
  {
    var s, r := MessageBits(m), MessageRemainder(m);
    Division(Ones(), s);
    ProductParity(Quotient(Ones(), s));
    ParityXor(TimesG(Quotient(Ones(), s)), Zeros(|s|) + r);
    ParityConcat(Zeros(|s|), r);
    ParityZero(Zeros(|s|));
    assert Augmented(Ones(), s) == Xor(s + Zeros(16), Ones() + Zeros(|s|));
    ParityXor(s + Zeros(16), Ones() + Zeros(|s|));
    ParityConcat(s, Zeros(16));
    ParityZero(Zeros(16));
    ParityConcat(Ones(), Zeros(|s|));
    OnesEven();
  }

  lemma OnesEven()
    ensures !Parity(Ones())
  {
    var four: Poly := [true, true, true, true];
    assert !Parity(four);
    ParityConcat(four, four);
    ParityConcat(four + four, four + four);
    assert Ones() == (four + four) + (four + four);
  }

  // ----- Two wrong bits

  lemma FeedSetBit(r: bv16)
    ensures Feed(r, true) == MulX(r) ^ 0x1021
  {
    if Top(r) { FeedSetTop(r); } else { FeedSetLow(r); }
  }

  lemma FeedSetTop(r: bv16)
    requires Top(r)
    ensures Feed(r, true) == MulX(r) ^ 0x1021
  {
  }

  lemma FeedSetLow(r: bv16)
    requires !Top(r)
    ensures Feed(r, true) == MulX(r) ^ 0x1021
  {
  }

  lemma {:induction false} MulPowZero(r: bv16, n: nat)
    ensures MulPow(r, n) == 0 <==> r == 0
  {
    ZeroPow(n);
    if MulPow(r, n) == 0 {
      MulPowInjective(r, 0, n);
    }
  }

  lemma {:induction false} ZeroPow(n: nat)
    ensures MulPow(0, n) == 0
  {
    if n > 0 {
      ZeroPow(n - 1);
    }
  }

  // The error polynomial with exactly the bits i and i + k set.
  function TwoBits(i: nat, k: nat, rest: nat): (d: Poly)
    requires k > 0
  {
    Zeros(i) + ([true] + (Zeros(k - 1) + ([true] + Zeros(rest))))
  }

  lemma FeedOne()
    ensures FeedBits(0, [true]) == 0x1021
    ensures XPow(16) == 0x1021
  {
    FeedSnoc(0, [], true);
    var n := Power16();
  }

  lemma FeedTwoBits(i: nat, k: nat, rest: nat)
    requires k > 0
    ensures FeedBits(0, TwoBits(i, k, rest)) == MulPow(XPow(16 + k) ^ 0x1021, rest)
  {
    var last := [true] + Zeros(rest);
    FeedConcat(0, Zeros(i), [true] + (Zeros(k - 1) + last));
    FeedZeros(0, i);
    ZeroPow(i);
    FeedConcat(0, [true], Zeros(k - 1) + last);
    FeedOne();
    FeedConcat(0x1021, Zeros(k - 1), last);
    FeedZeros(0x1021, k - 1);
    MulPowSum(1, 16, k - 1);
    FeedConcat(XPow(15 + k), [true], Zeros(rest));
    FeedSnoc(XPow(15 + k), [], true);
    FeedSetBit(XPow(15 + k));
    FeedZeros(XPow(16 + k) ^ 0x1021, rest);
  }

  lemma XorZeroIff(a: bv16, b: bv16)
    ensures a ^ b == 0 <==> a == b
  {
    if a ^ b == 0 {
      XorZero(a, b);
    }
  }

  lemma TwoBitsZero(i: nat, k: nat, rest: nat)
    requires k > 0
    ensures FeedBits(0, TwoBits(i, k, rest)) == 0 <==> k % ORDER == 0
  {
    FeedTwoBits(i, k, rest);
    MulPowZero(XPow(16 + k) ^ 0x1021, rest);
    XorZeroIff(XPow(16 + k), 0x1021);
    FeedOne();
    MulPowSum(1, k, 16);
    if XPow(16 + k) == XPow(16) {
      MulPowInjective(XPow(k), 1, 16);
    }
    Order(k);
  }

  lemma ZeroRemainderRegister(d: Poly)
    ensures IsZero(Remainder(Zeros(16), d)) <==> FeedBits(0, d) == 0
  {
    assert Holds(0, Zeros(16));
    HoldsRemainder(0, Zeros(16), d);
    RegisterRemainder(FeedBits(0, d), Remainder(Zeros(16), d), 0, Zeros(16));
  }

  lemma TwoBitsAre(d: Poly, i: nat, j: nat)
    requires i < j < |d| && d[i] && d[j]
    requires forall l | 0 <= l < |d| && d[l] :: l == i || l == j
    ensures d == TwoBits(i, j - i, |d| - 1 - j)
  {
  }

  // Two wrong bits at distance k cancel exactly when k is a multiple of 32767.
  lemma TwoBitErrorIff(m: seq<bv8>, m': seq<bv8>, i: nat, j: nat)
    requires |m| == |m'| && i < j < 8 * |m|
    requires Difference(m, m')[i] && Difference(m, m')[j]
    requires forall l | 0 <= l < 8 * |m| && Difference(m, m')[l] :: l == i || l == j
    ensures Crc(m) == Crc(m') <==> (j - i) % ORDER == 0
  {
    var d := Difference(m, m');
    SameRegister(m, m');
    SameRemainder(m, m');
    DifferenceRemainder(m, m');
    ZeroRemainderRegister(d);
    TwoBitsAre(d, i, j);
    TwoBitsZero(i, j - i, |d| - 1 - j);
  }

  // Up to three wrong bits anywhere in a message of at most 32767 bits.
  lemma FewErrorsDetected(m: seq<bv8>, m': seq<bv8>)
    requires |m| == |m'| && 8 * |m| <= ORDER
    requires 1 <= Weight(Difference(m, m')) <= 3
    ensures Crc(m) != Crc(m')
  {
    var d := Difference(m, m');
    if Weight(d) == 2 {
      var i, j := TwoSet(d);
      TwoBitErrorIff(m, m', i, j);
    } else {
      WeightParity(d);
      OddErrorDetected(m, m');
    }
  }
}
