// The multiplicative order of x modulo the generator of crc/crc_ccitt.c is exactly 32767.
module CrcOrder {

  import opened CrcRegister

  const ORDER: nat := 32767

  // x to the k, modulo the generator.
  function XPow(k: nat): bv16 {
    MulPow(1, k)
  }

  // ----- Multiplication by x is linear and loses nothing

  lemma LinearBoth(r: bv16, s: bv16)
    requires Top(r) && Top(s)
    ensures MulX(r ^ s) == MulX(r) ^ MulX(s)
  {
  }

  lemma LinearLeft(r: bv16, s: bv16)
    requires Top(r) && !Top(s)
    ensures MulX(r ^ s) == MulX(r) ^ MulX(s)
  {
  }

  lemma LinearRight(r: bv16, s: bv16)
    requires !Top(r) && Top(s)
    ensures MulX(r ^ s) == MulX(r) ^ MulX(s)
  {
  }

  lemma LinearNeither(r: bv16, s: bv16)
    requires !Top(r) && !Top(s)
    ensures MulX(r ^ s) == MulX(r) ^ MulX(s)
  {
  }

  lemma MulXLinear(r: bv16, s: bv16)
    ensures MulX(r ^ s) == MulX(r) ^ MulX(s)
  {
    if Top(r) {
      if Top(s) { LinearBoth(r, s); } else { LinearLeft(r, s); }
    } else {
      if Top(s) { LinearRight(r, s); } else { LinearNeither(r, s); }
    }
  }

  lemma MulXZero(r: bv16)
    requires MulX(r) == 0
    ensures r == 0
  {
  }

  lemma XorSelf(r: bv16, s: bv16)
    requires r == s
    ensures r ^ s == 0
  {
  }

  lemma XorZero(r: bv16, s: bv16)
    requires r ^ s == 0
    ensures r == s
  {
  }

  lemma MulXOfEqual(r: bv16, s: bv16)
    requires MulX(r) == MulX(s)
    ensures MulX(r ^ s) == 0
  {
    MulXLinear(r, s);
    XorSelf(MulX(r), MulX(s));
  }

  lemma MulXInjective(r: bv16, s: bv16)
    requires MulX(r) == MulX(s)
    ensures r == s
  {
    MulXOfEqual(r, s);
    MulXZero(r ^ s);
    XorZero(r, s);
  }

  lemma {:induction false} MulPowInjective(r: bv16, s: bv16, n: nat)
    requires MulPow(r, n) == MulPow(s, n)
    ensures r == s
    decreases n
  {
    if n > 0 {
      MulXInjective(MulPow(r, n - 1), MulPow(s, n - 1));
      MulPowInjective(r, s, n - 1);
    }
  }

  lemma {:induction false} MulPowSum(r: bv16, m: nat, n: nat)
    ensures MulPow(r, m + n) == MulPow(MulPow(r, m), n)
    decreases n
  {
    if n > 0 {
      MulPowSum(r, m, n - 1);
    }
  }

  // ----- Products of powers

  function Add(m: bv16, digit: bool, b: bv16): bv16 {
    if digit then m ^ b else m
  }

  function Acc(acc: bv16, digit: bool, b: bv16): bv16 {
    Add(MulX(acc), digit, b)
  }

  // Horner's rule: the product of a and b over the four leading coefficients of a, and over all sixteen.
  function Horner4(a: bv16, acc: bv16, b: bv16): bv16 {
    Acc(Acc(Acc(Acc(acc, Top(a), b), Top(a << 1), b), Top(a << 2), b), Top(a << 3), b)
  }

  function Times(a: bv16, b: bv16): bv16 {
    Horner4(a << 12, Horner4(a << 8, Horner4(a << 4, Horner4(a, 0, b), b), b), b)
  }

  lemma SumShift(m: bv16, b: bv16)
    ensures MulX(m) ^ MulX(b) == MulX(m ^ b)
  {
    MulXLinear(m, b);
  }

  lemma AddShift(m: bv16, digit: bool, b: bv16)
    ensures Add(MulX(m), digit, MulX(b)) == MulX(Add(m, digit, b))
  {
    if digit {
      SumShift(m, b);
    }
  }

  lemma AccShift(acc: bv16, digit: bool, b: bv16)
    ensures Acc(MulX(acc), digit, MulX(b)) == MulX(Acc(acc, digit, b))
  {
    AddShift(MulX(acc), digit, b);
  }

  lemma Horner4Shift(a: bv16, acc: bv16, b: bv16)
    ensures Horner4(a, MulX(acc), MulX(b)) == MulX(Horner4(a, acc, b))
  {
    var acc1 := Acc(acc, Top(a), b);
    var acc2 := Acc(acc1, Top(a << 1), b);
    var acc3 := Acc(acc2, Top(a << 2), b);
    AccShift(acc, Top(a), b);
    AccShift(acc1, Top(a << 1), b);
    AccShift(acc2, Top(a << 2), b);
    AccShift(acc3, Top(a << 3), b);
  }

  lemma TimesShift(a: bv16, b: bv16)
    ensures Times(a, MulX(b)) == MulX(Times(a, b))
  {
    var acc1 := Horner4(a, 0, b);
    var acc2 := Horner4(a << 4, acc1, b);
    var acc3 := Horner4(a << 8, acc2, b);
    assert MulX(0) == 0;
    Horner4Shift(a, 0, b);
    Horner4Shift(a << 4, acc1, b);
    Horner4Shift(a << 8, acc2, b);
    Horner4Shift(a << 12, acc3, b);
  }

  lemma {:induction false} TimesPow(a: bv16, k: nat)
    ensures Times(a, XPow(k)) == MulPow(Times(a, 1), k)
    decreases k
  {
    if k > 0 {
      TimesPow(a, k - 1);
      TimesShift(a, XPow(k - 1));
    }
  }

  // The product of two known powers, worked out on the registers, is the power of the summed exponents.
  lemma Product(i: nat, a: bv16, j: nat, b: bv16, c: bv16)
    requires XPow(i) == a && XPow(j) == b
    requires Times(a, 1) == a && Times(a, b) == c
    ensures XPow(i + j) == c
  {
    MulPowSum(1, i, j);
    TimesPow(a, j);
  }

  lemma Power8() returns (k: nat)
    ensures k == 8 && XPow(k) == 0x0100
  {
    k := 0;
    assert XPow(k) == 0x01;
    k := k + 1;
    assert XPow(k) == 0x02;
    k := k + 1;
    assert XPow(k) == 0x04;
    k := k + 1;
    assert XPow(k) == 0x08;
    k := k + 1;
    assert XPow(k) == 0x10;
    k := k + 1;
    assert XPow(k) == 0x20;
    k := k + 1;
    assert XPow(k) == 0x40;
    k := k + 1;
    assert XPow(k) == 0x80;
    k := k + 1;
  }

  lemma Power9() returns (k: nat)
    ensures k == 9 && XPow(k) == 0x0200
  {
    k := Power8();
    k := k + 1;
  }

  lemma Power16() returns (k: nat)
    ensures k == 16 && XPow(k) == 0x1021
  {
    var j := Power8();
    Product(j, 0x0100, j, 0x0100, 0x1021);
    k := j + j;
  }

  lemma Power32() returns (k: nat)
    ensures k == 32 && XPow(k) == 0x3730
  {
    var j := Power16();
    Product(j, 0x1021, j, 0x1021, 0x3730);
    k := j + j;
  }

  lemma Power64() returns (k: nat)
    ensures k == 64 && XPow(k) == 0xB861
  {
    var j := Power32();
    Product(j, 0x3730, j, 0x3730, 0xB861);
    k := j + j;
  }

  lemma Power128() returns (k: nat)
    ensures k == 128 && XPow(k) == 0xAEFC
  {
    var j := Power64();
    Product(j, 0xB861, j, 0xB861, 0xAEFC);
    k := j + j;
  }

  lemma Power256() returns (k: nat)
    ensures k == 256 && XPow(k) == 0x8E29
  {
    var j := Power128();
    Product(j, 0xAEFC, j, 0xAEFC, 0x8E29);
    k := j + j;
  }

  lemma Power512() returns (k: nat)
    ensures k == 512 && XPow(k) == 0x13FC
  {
    var j := Power256();
    Product(j, 0x8E29, j, 0x8E29, 0x13FC);
    k := j + j;
  }

  lemma Power1024() returns (k: nat)
    ensures k == 1024 && XPow(k) == 0x36C4
  {
    var j := Power512();
    Product(j, 0x13FC, j, 0x13FC, 0x36C4);
    k := j + j;
  }

  lemma Power2048() returns (k: nat)
    ensures k == 2048 && XPow(k) == 0xFD50
  {
    var j := Power1024();
    Product(j, 0x36C4, j, 0x36C4, 0xFD50);
    k := j + j;
  }

  lemma Power4096() returns (k: nat)
    ensures k == 4096 && XPow(k) == 0xAA9E
  {
    var j := Power2048();
    Product(j, 0xFD50, j, 0xFD50, 0xAA9E);
    k := j + j;
  }

  lemma Power8192() returns (k: nat)
    ensures k == 8192 && XPow(k) == 0x881C
  {
    var j := Power4096();
    Product(j, 0xAA9E, j, 0xAA9E, 0x881C);
    k := j + j;
  }

  lemma Power16384() returns (k: nat)
    ensures k == 16384 && XPow(k) == 0x4458
  {
    var j := Power8192();
    Product(j, 0x881C, j, 0x881C, 0x4458);
    k := j + j;
  }

  lemma Power32768() returns (k: nat)
    ensures k == 32768 && XPow(k) == 0x0002
  {
    var j := Power16384();
    Product(j, 0x4458, j, 0x4458, 0x0002);
    k := j + j;
  }

  lemma Power192() returns (n: nat)
    ensures n == 192 && XPow(n) == 0x650B
  {
    n := Power128();
    var e64 := Power64();
    Product(n, 0xAEFC, e64, 0xB861, 0x650B);
    n := n + e64;
  }

  lemma Power208() returns (n: nat)
    ensures n == 208 && XPow(n) == 0x45B4
  {
    n := Power192();
    var e16 := Power16();
    Product(n, 0x650B, e16, 0x1021, 0x45B4);
    n := n + e16;
  }

  lemma Power217() returns (n: nat)
    ensures n == 217 && XPow(n) == 0x48E3
  {
    n := Power208();
    var e9 := Power9();
    Product(n, 0x45B4, e9, 0x0200, 0x48E3);
    n := n + e9;
  }

  lemma Power1056() returns (n: nat)
    ensures n == 1056 && XPow(n) == 0xF147
  {
    n := Power1024();
    var e32 := Power32();
    Product(n, 0x36C4, e32, 0x3730, 0xF147);
    n := n + e32;
  }

  lemma Power1057() returns (n: nat)
    ensures n == 1057 && XPow(n) == 0xF2AF
  {
    n := Power1056();
    n := n + 1;
  }

  lemma Power4608() returns (n: nat)
    ensures n == 4608 && XPow(n) == 0x54A0
  {
    n := Power4096();
    var e512 := Power512();
    Product(n, 0xAA9E, e512, 0x13FC, 0x54A0);
    n := n + e512;
  }

  lemma Power4672() returns (n: nat)
    ensures n == 4672 && XPow(n) == 0x0106
  {
    n := Power4608();
    var e64 := Power64();
    Product(n, 0x54A0, e64, 0xB861, 0x0106);
    n := n + e64;
  }

  lemma Power4681() returns (n: nat)
    ensures n == 4681 && XPow(n) == 0x2C42
  {
    n := Power4672();
    var e9 := Power9();
    Product(n, 0x0106, e9, 0x0200, 0x2C42);
    n := n + e9;
  }

  lemma PowerOrder() returns (n: nat)
    ensures n == ORDER && XPow(n) == 1
  {
    var next := Power32768();
    n := next - 1;
    MulXInjective(XPow(n), 1);
  }

  // ----- Exponents k with x^k r = r

  predicate Period(r: bv16, k: nat) {
    MulPow(r, k) == r
  }

  lemma PeriodDifference(r: bv16, a: nat, b: nat)
    requires Period(r, a + b) && Period(r, b)
    ensures Period(r, a)
  {
    MulPowSum(r, a, b);
    MulPowInjective(MulPow(r, a), r, b);
  }

  lemma {:induction false} PeriodMultiple(r: bv16, g: nat, u: nat)
    requires Period(r, g)
    ensures Period(r, g * u)
    decreases u
  {
    if u > 0 {
      PeriodMultiple(r, g, u - 1);
      assert g * u == g * (u - 1) + g;
      MulPowSum(r, g * (u - 1), g);
    }
  }

  // Euclid's algorithm: two such exponents have a common divisor that is one too.
  lemma {:induction false} PeriodDivisor(r: bv16, a: nat, b: nat) returns (g: nat, u: nat, v: nat)
    requires a > 0 && b > 0
    requires Period(r, a) && Period(r, b)
    ensures g > 0 && a == g * u && b == g * v
    ensures Period(r, g)
    decreases a + b
  {
    if a == b {
      g, u, v := a, 1, 1;
    } else if a > b {
      PeriodDifference(r, a - b, b);
      g, u, v := PeriodDivisor(r, a - b, b);
      assert g * (u + v) == g * u + g * v;
      u := u + v;
    } else {
      PeriodDifference(r, b - a, a);
      g, u, v := PeriodDivisor(r, a, b - a);
      assert g * (u + v) == g * u + g * v;
      v := u + v;
    }
  }

  // ----- The divisors of the order, 32767 = 7 * 31 * 151

  lemma SmallDivisor(d: nat, e: nat)
    requires d * e == ORDER && d <= 181
    ensures d == 1 || d == 7 || d == 31 || d == 151
  {
  }

  // A proper divisor of the order divides one of its three largest ones.
  lemma ProperDivisor(g: nat, v: nat) returns (w: nat)
    requires g * v == ORDER && g < ORDER
    ensures g * w == 217 || g * w == 1057 || g * w == 4681
  {
    if v <= 181 {
      SmallDivisor(v, g);
      w := 1;
    } else {
      assert g > 181 ==> g * v >= 182 * v;
      SmallDivisor(g, v);
      w := if g == 1 then 217 else if g == 7 then 31 else 7;
    }
  }

  // The order is a period of r, and its three largest proper divisors are not.
  ghost predicate FullPeriod(r: bv16) {
    Period(r, ORDER) && !Period(r, 217) && !Period(r, 1057) && !Period(r, 4681)
  }

  lemma NoProperPeriod(r: bv16, g: nat, v: nat)
    requires FullPeriod(r) && g * v == ORDER && g < ORDER
    ensures !Period(r, g)
  {
    if Period(r, g) {
      var w := ProperDivisor(g, v);
      PeriodMultiple(r, g, w);
      assert false;
    }
  }

  lemma PeriodIff(r: bv16, k: nat)
    requires FullPeriod(r)
    ensures Period(r, k) <==> k % ORDER == 0
  {
    hide Period, FullPeriod;
    var q, m := k / ORDER, k % ORDER;
    OrderIsPeriod(r);
    PeriodMultiple(r, ORDER, q);
    assert k == m + ORDER * q;
    if Period(r, k) {
      PeriodDifference(r, m, ORDER * q);
      if m > 0 {
        var g, u, v := PeriodDivisor(r, m, ORDER);
        DivisorBelow(g, u, m);
        NoProperPeriod(r, g, v);
        assert false;
      }
    }
  }

  lemma OrderIsPeriod(r: bv16)
    requires FullPeriod(r)
    ensures Period(r, ORDER)
  {
  }

  // Multiplying a by x^k, worked out on the registers.
  lemma TimesPeriod(a: bv16, k: nat, b: bv16)
    requires XPow(k) == b && Times(a, 1) == a
    ensures Period(a, k) <==> Times(a, b) == a
  {
    TimesPow(a, k);
  }

  lemma OnePeriods()
    ensures FullPeriod(1)
  {
    hide MulPow;
    var n := PowerOrder();
    var n217 := Power217();
    var n1057 := Power1057();
    var n4681 := Power4681();
  }

  // The all-ones register, which no power of x is, comes round after as many steps.
  lemma OnesPeriods()
    ensures FullPeriod(0xFFFF)
  {
    hide MulPow;
    var n := PowerOrder();
    TimesPeriod(0xFFFF, n, 1);
    var n217 := Power217();
    TimesPeriod(0xFFFF, n217, 0x48E3);
    var n1057 := Power1057();
    TimesPeriod(0xFFFF, n1057, 0xF2AF);
    var n4681 := Power4681();
    TimesPeriod(0xFFFF, n4681, 0x2C42);
  }

  // The order of x is exactly 32767.
  lemma Order(k: nat)
    ensures XPow(k) == 1 <==> k % ORDER == 0
  {
    OnePeriods();
    PeriodIff(1, k);
  }

  lemma DivisorBelow(g: nat, u: nat, r: nat)
    requires r == g * u && r > 0
    ensures g <= r
  {
    assert u >= 1;
  }
}
