// The 16-bit register of crc/crc_ccitt.c, advanced one bit at a time.
module CrcRegister {

  import opened Gf2

  const PRESET: bv16 := 0xFFFF

  // The coefficient of x^15.
  predicate Top(r: bv16) {
    r >= 0x8000
  }

  // The register moved up one place, with the generator's x^12 + x^5 + 1 added when a quotient digit is due.
  function Moved(r: bv16, digit: bool): bv16 {
    if digit then (r << 1) ^ 0x1021 else r << 1
  }

  // One message bit enters at the top of the register.
  function Feed(r: bv16, b: bool): bv16 {
    Moved(r, Top(r) != b)
  }

  function FeedBits(r: bv16, s: Poly): bv16
    decreases |s|
  {
    if s == [] then r else Feed(FeedBits(r, s[..|s| - 1]), s[|s| - 1])
  }

  // Sixteen coefficients, from that of x^15 to that of 1.
  datatype Word = Word(
    b15: bool, b14: bool, b13: bool, b12: bool, b11: bool, b10: bool, b9: bool, b8: bool,
    b7: bool, b6: bool, b5: bool, b4: bool, b3: bool, b2: bool, b1: bool, b0: bool)

  function RegisterWord(r: bv16): Word {
    Word(
      r >= 0x8000, (r << 1) >= 0x8000, (r << 2) >= 0x8000, (r << 3) >= 0x8000,
      (r << 4) >= 0x8000, (r << 5) >= 0x8000, (r << 6) >= 0x8000, (r << 7) >= 0x8000,
      (r << 8) >= 0x8000, (r << 9) >= 0x8000, (r << 10) >= 0x8000, (r << 11) >= 0x8000,
      (r << 12) >= 0x8000, (r << 13) >= 0x8000, (r << 14) >= 0x8000, (r << 15) >= 0x8000)
  }

  function PolyWord(p: Poly): Word
    requires |p| == 16
  {
    Word(p[0], p[1], p[2], p[3], p[4], p[5], p[6], p[7], p[8], p[9], p[10], p[11], p[12], p[13], p[14], p[15])
  }

  // The register holds the remainder p.
  predicate Holds(r: bv16, p: Poly) {
    |p| == 16 && PolyWord(p) == RegisterWord(r)
  }

  // ----- The register refines long division by the generator

  lemma HoldsPlain(r: bv16, p: Poly)
    requires Holds(r, p)
    ensures Holds(r << 1, Shifted(p, false))
  {
  }

  lemma HoldsToggled(r: bv16, p: Poly)
    requires Holds(r, p)
    ensures Holds((r << 1) ^ 0x1021, Shifted(p, true))
  {
  }

  lemma HoldsFeed(r: bv16, p: Poly, b: bool)
    requires Holds(r, p)
    ensures Holds(Feed(r, b), Shifted(p, p[0] != b))
  {
    if p[0] != b {
      HoldsToggled(r, p);
    } else {
      HoldsPlain(r, p);
    }
  }

  lemma HoldsRegister(r: bv16, s: bv16, p: Poly)
    requires Holds(r, p) && Holds(s, p)
    ensures r == s
  {
  }

  lemma HoldsPoly(r: bv16, p: Poly, q: Poly)
    requires Holds(r, p) && Holds(r, q)
    ensures p == q
  {
  }

  lemma {:induction false} HoldsRemainder(r: bv16, p: Poly, s: Poly)
    requires Holds(r, p)
    ensures Holds(FeedBits(r, s), Remainder(p, s))
    decreases |s|
  {
    if s != [] {
      HoldsRemainder(r, p, s[..|s| - 1]);
      HoldsFeed(FeedBits(r, s[..|s| - 1]), Remainder(p, s[..|s| - 1]), s[|s| - 1]);
    }
  }

  lemma HoldsXor(r: bv16, p: Poly, s: bv16, q: Poly)
    requires Holds(r, p) && Holds(s, q)
    ensures Holds(r ^ s, Xor(p, q))
  {
  }

  lemma FeedSnoc(r: bv16, s: Poly, b: bool)
    ensures FeedBits(r, s + [b]) == Feed(FeedBits(r, s), b)
  {
    assert (s + [b])[..|s|] == s;
  }

  lemma {:induction false} FeedConcat(r: bv16, s: Poly, t: Poly)
    ensures FeedBits(r, s + t) == FeedBits(FeedBits(r, s), t)
    decreases |t|
  {
    if t == [] {
      assert s + t == s;
    } else {
      var t', b := t[..|t| - 1], t[|t| - 1];
      assert s + t == (s + t') + [b];
      FeedConcat(r, s, t');
      FeedSnoc(r, s + t', b);
    }
  }

  // ----- Multiplication by x

  // The register times x, modulo the generator.
  function MulX(r: bv16): bv16 {
    Moved(r, Top(r))
  }

  // The register times x to the n, modulo the generator.
  function MulPow(r: bv16, n: nat): bv16
    decreases n
  {
    if n == 0 then r else MulX(MulPow(r, n - 1))
  }

  lemma {:induction false} FeedZeros(r: bv16, n: nat)
    ensures FeedBits(r, Zeros(n)) == MulPow(r, n)
    decreases n
  {
    if n > 0 {
      FeedZeros(r, n - 1);
      assert Zeros(n)[..n - 1] == Zeros(n - 1);
    }
  }
}
