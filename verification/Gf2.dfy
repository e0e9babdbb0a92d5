// Polynomials over the two-element field, the arithmetic behind crc/crc_ccitt.c.
//
// A polynomial is the sequence of its coefficients, most significant first, so a message read bit by bit is a
// polynomial. Leading zeros are allowed.
module Gf2 {

  type Poly = seq<bool>

  // The coefficient at position i, where positions outside the sequence hold zero.
  predicate At(p: Poly, i: int) {
    0 <= i < |p| && p[i]
  }

  function Zeros(n: nat): (p: Poly)
    ensures |p| == n
  {
    seq(n, _ => false)
  }

  ghost predicate IsZero(p: Poly) {
    forall i | 0 <= i < |p| :: !p[i]
  }

  function Xor(p: Poly, q: Poly): (s: Poly)
    requires |p| == |q|
    ensures |s| == |p|
    ensures forall i | 0 <= i < |p| :: s[i] == (p[i] != q[i])
  {
    seq(|p|, i requires 0 <= i < |p| => p[i] != q[i])
  }

  // The generator x^16 + x^12 + x^5 + 1, of 17 coefficients.
  predicate InG(i: int) {
    i == 0 || i == 4 || i == 11 || i == 16
  }

  const G: Poly := seq(17, i => InG(i))

  // Coefficient i of the product of q and the generator: q at the four shifts the generator names.
  predicate ProductAt(q: Poly, i: int) {
    ((At(q, i) != At(q, i - 4)) != At(q, i - 11)) != At(q, i - 16)
  }

  function TimesG(q: Poly): (p: Poly)
    ensures |p| == |q| + 16
  {
    seq(|q| + 16, i => ProductAt(q, i))
  }

  // A remainder of 16 coefficients moved one place up, with the generator taken off when a quotient digit is due.
  function Shifted(p: Poly, digit: bool): (s: Poly)
    requires |p| == 16
    ensures |s| == 16
  {
    seq(16, i => At(p, i + 1) != (digit && InG(i + 1)))
  }

  // p is a multiple of the generator, on as many coefficients as p has.
  ghost predicate IsMultiple(p: Poly) {
    IsZero(p) || exists q: Poly :: |q| + 16 == |p| && p == TimesG(q)
  }

  // Long division of the dividend s, most significant coefficient first, with p already in the remainder.
  function Remainder(p: Poly, s: Poly): (r: Poly)
    requires |p| == 16
    ensures |r| == 16
    decreases |s|
  {
    if s == [] then p else
      var r := Remainder(p, s[..|s| - 1]);
      Shifted(r, r[0] != s[|s| - 1])
  }

  function Quotient(p: Poly, s: Poly): (q: Poly)
    requires |p| == 16
    ensures |q| == |s|
    decreases |s|
  {
    if s == [] then [] else
      Quotient(p, s[..|s| - 1]) + [Remainder(p, s[..|s| - 1])[0] != s[|s| - 1]]
  }

  // The dividend the division is about: s times x^16, with p added at its top.
  function Augmented(p: Poly, s: Poly): (d: Poly)
    requires |p| == 16
    ensures |d| == |s| + 16
  {
    Xor(s + Zeros(16), p + Zeros(|s|))
  }

  // Whether an odd number of coefficients is set.
  predicate Parity(p: Poly) {
    if p == [] then false else p[0] != Parity(p[1..])
  }

  // The number of set coefficients.
  function Weight(p: Poly): nat {
    if p == [] then 0 else (if p[0] then 1 else 0) + Weight(p[1..])
  }

  lemma ZeroDifference(p: Poly, q: Poly)
    requires |p| == |q|
    ensures IsZero(Xor(p, q)) <==> p == q
  {
    if IsZero(Xor(p, q)) {
      assert forall i | 0 <= i < |p| :: !Xor(p, q)[i];
    }
  }

  lemma TimesGLinear(p: Poly, q: Poly)
    requires |p| == |q|
    ensures TimesG(Xor(p, q)) == Xor(TimesG(p), TimesG(q))
  {
  }

  lemma AtSnoc(q: Poly, t: bool, i: int)
    ensures At(q + [t], i) == (At(q, i) != (t && i == |q|))
  {
  }

  lemma ProductAtSnoc(q: Poly, t: bool, i: int)
    ensures ProductAt(q + [t], i) == (ProductAt(q, i) != (t && InG(i - |q|)))
  {
    AtSnoc(q, t, i);
    AtSnoc(q, t, i - 4);
    AtSnoc(q, t, i - 11);
    AtSnoc(q, t, i - 16);
  }

  // Long division, one digit further: a quotient digit contributes the generator, aligned with it.
  lemma TimesGSnoc(q: Poly, t: bool)
    ensures TimesG(q + [t]) == Xor(TimesG(q) + [false], Zeros(|q|) + (if t then G else Zeros(17)))
  {
    var digit := Zeros(|q|) + (if t then G else Zeros(17));
    forall i | 0 <= i < |q| + 17
      ensures TimesG(q + [t])[i] == ((TimesG(q) + [false])[i] != digit[i])
    {
      ProductAtSnoc(q, t, i);
      assert digit[i] == (t && InG(i - |q|));
      assert (TimesG(q) + [false])[i] == ProductAt(q, i);
    }
  }

  // One step of long division: the next dividend coefficient b decides the quotient digit, which clears the top.
  lemma ShiftedDivides(p: Poly, b: bool)
    requires |p| == 16
    ensures var digit := p[0] != b;
      Xor(p + [false], [b] + Zeros(16)) == Xor(if digit then G else Zeros(17), [false] + Shifted(p, digit))
  {
  }

  lemma AugmentedSnoc(p: Poly, s: Poly, b: bool)
    requires |p| == 16
    ensures Augmented(p, s + [b]) == Xor(Augmented(p, s) + [false], Zeros(|s|) + ([b] + Zeros(16)))
  {
  }

  // Moves two terms of a sum of five from one side to the other.
  lemma XorExchange(a: Poly, r: Poly, b: Poly, g: Poly, r': Poly)
    requires |a| == |r| == |b| == |g| == |r'|
    requires Xor(r, b) == Xor(g, r')
    ensures Xor(Xor(a, r), b) == Xor(Xor(a, g), r')
  {
    forall i | 0 <= i < |a|
      ensures Xor(Xor(a, r), b)[i] == Xor(Xor(a, g), r')[i]
    {
      assert Xor(r, b)[i] == Xor(g, r')[i];
    }
  }

  lemma XorLifted(n: nat, p: Poly, q: Poly)
    requires |p| == |q|
    ensures Xor(Zeros(n) + p, Zeros(n) + q) == Zeros(n) + Xor(p, q)
  {
  }

  lemma DivisionStep(p: Poly, s: Poly, b: bool, q: Poly, r: Poly)
    requires |p| == |r| == 16 && |q| == |s|
    requires Augmented(p, s) == Xor(TimesG(q), Zeros(|s|) + r)
    ensures var digit := r[0] != b;
      Augmented(p, s + [b]) == Xor(TimesG(q + [digit]), Zeros(|s| + 1) + Shifted(r, digit))
  {
    var n, digit := |s|, r[0] != b;
    var g, next := if digit then G else Zeros(17), [false] + Shifted(r, digit);
    var a, low, top := TimesG(q) + [false], r + [false], [b] + Zeros(16);
    AugmentedSnoc(p, s, b);
    assert Augmented(p, s) + [false] == Xor(a, Zeros(n) + low);
    TimesGSnoc(q, digit);
    assert Zeros(n + 1) + Shifted(r, digit) == Zeros(n) + next;
    ShiftedDivides(r, b);
    XorLifted(n, low, top);
    XorLifted(n, g, next);
    XorExchange(a, Zeros(n) + low, Zeros(n) + top, Zeros(n) + g, Zeros(n) + next);
  }

  // The quotient and the remainder are those of division by the generator.
  lemma {:induction false} Division(p: Poly, s: Poly)
    requires |p| == 16
    ensures Augmented(p, s) == Xor(TimesG(Quotient(p, s)), Zeros(|s|) + Remainder(p, s))
    decreases |s|
  {
    if s != [] {
      var n := |s| - 1;
      Division(p, s[..n]);
      DivisionStep(p, s[..n], s[n], Quotient(p, s[..n]), Remainder(p, s[..n]));
      assert s == s[..n] + [s[n]];
    }
  }

  // ----- Remainders add up

  lemma ShiftedLinear(p: Poly, a: bool, q: Poly, b: bool)
    requires |p| == |q| == 16
    ensures Shifted(Xor(p, q), a != b) == Xor(Shifted(p, a), Shifted(q, b))
  {
  }

  lemma {:induction false} RemainderLinear(p: Poly, s: Poly, q: Poly, t: Poly)
    requires |p| == |q| == 16 && |s| == |t|
    ensures Remainder(Xor(p, q), Xor(s, t)) == Xor(Remainder(p, s), Remainder(q, t))
    decreases |s|
  {
    if s != [] {
      var n := |s| - 1;
      RemainderLinear(p, s[..n], q, t[..n]);
      assert Xor(s, t)[..n] == Xor(s[..n], t[..n]);
      var r, r' := Remainder(p, s[..n]), Remainder(q, t[..n]);
      ShiftedLinear(r, r[0] != s[n], r', r'[0] != t[n]);
    }
  }

  // Dividend bits that equal the top of the remainder cancel it: what follows them moves up unchanged.
  lemma {:induction false} RemainderCancels(s: Poly, low: Poly)
    requires |s| + |low| == 16
    ensures Remainder(s + low, s) == low + Zeros(|s|)
    decreases |s|
  {
    if s == [] {
      assert s + low == low;
    } else {
      var n := |s| - 1;
      assert s + low == s[..n] + ([s[n]] + low);
      RemainderCancels(s[..n], [s[n]] + low);
      var r := Remainder(s + low, s[..n]);
      assert Shifted(r, false) == low + Zeros(|s|);
    }
  }

  // Eight dividend bits at once: they meet the upper half of the remainder, and the lower half moves up.
  lemma RemainderByte(p: Poly, s: Poly)
    requires |p| == 16 && |s| == 8
    ensures Remainder(p, s) == Xor(Remainder(Xor(p[..8], s) + Zeros(8), Zeros(8)), p[8..] + Zeros(8))
  {
    assert p == Xor(Xor(p[..8], s) + Zeros(8), s + p[8..]);
    assert s == Xor(Zeros(8), s);
    RemainderLinear(Xor(p[..8], s) + Zeros(8), Zeros(8), s + p[8..], s);
    RemainderCancels(s, p[8..]);
  }

  lemma FirstSet(p: Poly) returns (i: nat)
    requires !IsZero(p)
    ensures i < |p| && p[i] && forall j | 0 <= j < i :: !p[j]
  {
    if p[0] {
      i := 0;
    } else {
      var k := FirstSet(p[1..]);
      i := k + 1;
    }
  }

  lemma LastSet(p: Poly) returns (i: nat)
    requires !IsZero(p)
    ensures i < |p| && p[i] && forall j | i < j < |p| :: !p[j]
  {
    if p[|p| - 1] {
      i := |p| - 1;
    } else {
      i := LastSet(p[..|p| - 1]);
    }
  }

  // A nonzero multiple of the generator starts where its quotient starts and ends 16 places after its quotient
  // ends, so it spans at least 17 places.
  lemma ProductSpan(q: Poly) returns (first: nat, last: nat)
    requires !IsZero(q)
    ensures first <= last < |q|
    ensures TimesG(q)[first] && TimesG(q)[last + 16]
    ensures q[first] && forall j | 0 <= j < first :: !q[j]
    ensures q[last] && forall j | last < j < |q| :: !q[j]
  {
    first := FirstSet(q);
    last := LastSet(q);
  }

  // Division by the generator has one quotient and one remainder of 16 coefficients.
  lemma DivisionUnique(q1: Poly, r1: Poly, q2: Poly, r2: Poly)
    requires |q1| == |q2| && |r1| == |r2| == 16
    requires Xor(TimesG(q1), Zeros(|q1|) + r1) == Xor(TimesG(q2), Zeros(|q2|) + r2)
    ensures q1 == q2 && r1 == r2
  {
    var q := Xor(q1, q2);
    TimesGLinear(q1, q2);
    assert forall i | 0 <= i < |q| + 16 ::
      TimesG(q)[i] == ((Zeros(|q1|) + r1)[i] != (Zeros(|q2|) + r2)[i]) by {
      forall i | 0 <= i < |q| + 16
        ensures TimesG(q)[i] == ((Zeros(|q1|) + r1)[i] != (Zeros(|q2|) + r2)[i])
      {
        assert Xor(TimesG(q1), Zeros(|q1|) + r1)[i] == Xor(TimesG(q2), Zeros(|q2|) + r2)[i];
      }
    }
    if !IsZero(q) {
      var first, last := ProductSpan(q);
      assert false;
    }
    ZeroDifference(q1, q2);
    forall i | 0 <= i < 16
      ensures r1[i] == r2[i]
    {
      assert Xor(TimesG(q1), Zeros(|q1|) + r1)[|q1| + i] == Xor(TimesG(q2), Zeros(|q2|) + r2)[|q1| + i];
    }
  }

  lemma {:induction false} ParityConcat(p: Poly, q: Poly)
    ensures Parity(p + q) == (Parity(p) != Parity(q))
  {
    if p == [] {
      assert p + q == q;
    } else {
      assert (p + q)[1..] == p[1..] + q;
      ParityConcat(p[1..], q);
    }
  }

  lemma {:induction false} ParityXor(p: Poly, q: Poly)
    requires |p| == |q|
    ensures Parity(Xor(p, q)) == (Parity(p) != Parity(q))
  {
    if p != [] {
      assert Xor(p, q)[1..] == Xor(p[1..], q[1..]);
      ParityXor(p[1..], q[1..]);
    }
  }

  lemma {:induction false} ParityZero(p: Poly)
    requires IsZero(p)
    ensures !Parity(p)
  {
    if p != [] {
      ParityZero(p[1..]);
    }
  }

  // x + 1 divides the generator: a multiple of it always has an even number of set coefficients.
  lemma {:induction false} ProductParity(q: Poly)
    ensures !Parity(TimesG(q))
  {
    if q == [] {
      ParityZero(TimesG(q));
    } else {
      var p, t := q[..|q| - 1], q[|q| - 1];
      assert q == p + [t];
      ProductParity(p);
      TimesGSnoc(p, t);
      var digit := if t then G else Zeros(17);
      ParityXor(TimesG(p) + [false], Zeros(|p|) + digit);
      ParityConcat(TimesG(p), [false]);
      ParityConcat(Zeros(|p|), digit);
      ParityZero(Zeros(|p|));
      ParityZero(Zeros(17));
      GeneratorParity();
    }
  }

  lemma GeneratorParity()
    ensures !Parity(G)
  {
    assert G == [true] + (Zeros(3) + ([true] + (Zeros(6) + ([true] + (Zeros(4) + [true])))));
    ParityConcat([true], Zeros(3) + ([true] + (Zeros(6) + ([true] + (Zeros(4) + [true])))));
    ParityConcat(Zeros(3), [true] + (Zeros(6) + ([true] + (Zeros(4) + [true]))));
    ParityConcat([true], Zeros(6) + ([true] + (Zeros(4) + [true])));
    ParityConcat(Zeros(6), [true] + (Zeros(4) + [true]));
    ParityConcat([true], Zeros(4) + [true]);
    ParityConcat(Zeros(4), [true]);
    ParityZero(Zeros(3));
    ParityZero(Zeros(6));
    ParityZero(Zeros(4));
  }

  lemma {:induction false} WeightParity(p: Poly)
    ensures Parity(p) <==> Weight(p) % 2 == 1
  {
    if p != [] {
      WeightParity(p[1..]);
    }
  }

  lemma {:induction false} WeightZero(p: Poly)
    requires Weight(p) == 0
    ensures IsZero(p)
  {
    if p != [] {
      WeightZero(p[1..]);
      assert forall i | 0 < i < |p| :: p[i] == p[1..][i - 1];
    }
  }

  lemma {:induction false} OneSet(p: Poly) returns (i: nat)
    requires Weight(p) == 1
    ensures i < |p| && p[i] && forall l | 0 <= l < |p| && p[l] :: l == i
  {
    assert forall l | 0 < l < |p| :: p[l] == p[1..][l - 1];
    if p[0] {
      WeightZero(p[1..]);
      i := 0;
    } else {
      i := OneSet(p[1..]);
      i := i + 1;
    }
  }

  lemma {:induction false} TwoSet(p: Poly) returns (i: nat, j: nat)
    requires Weight(p) == 2
    ensures i < j < |p| && p[i] && p[j] && forall l | 0 <= l < |p| && p[l] :: l == i || l == j
  {
    assert forall l | 0 < l < |p| :: p[l] == p[1..][l - 1];
    if p[0] {
      j := OneSet(p[1..]);
      i, j := 0, j + 1;
    } else {
      i, j := TwoSet(p[1..]);
      i, j := i + 1, j + 1;
    }
  }
}
