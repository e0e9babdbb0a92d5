// What the preset of crc_ccitt is for: zero bytes in front of a message count.
module CrcPreset {

  import opened Gf2
  import opened CrcRegister
  import opened CrcByte
  import opened CrcOrder
  import opened CrcMessage
  import opened CrcDetection
  import opened CrcFrame

  function ZeroBytes(n: nat): (m: seq<bv8>)
    ensures |m| == n
  {
    seq(n, _ => 0)
  }

  lemma ZeroByteBits()
    ensures ByteBits(0) == Zeros(8)
  {
  }

  lemma {:induction false} ZeroMessageBits(n: nat)
    ensures MessageBits(ZeroBytes(n)) == Zeros(8 * n)
  {
    if n > 0 {
      ZeroMessageBits(n - 1);
      ZeroByteBits();
      assert ZeroBytes(n)[..n - 1] == ZeroBytes(n - 1);
      assert Zeros(8 * n) == Zeros(8 * (n - 1)) + Zeros(8);
    }
  }

  lemma FeedInjective(r: bv16, s: bv16, b: bool)
    requires Feed(r, b) == Feed(s, b)
    ensures r == s
  {
    hide Feed;
    if b {
      SetInjective(r, s);
    } else {
      ClearInjective(r, s);
    }
  }

  lemma SetInjective(r: bv16, s: bv16)
    requires Feed(r, true) == Feed(s, true)
    ensures r == s
  {
    hide Feed, MulX;
    FeedSetBit(r);
    FeedSetBit(s);
    SumInjective(MulX(r), MulX(s), Feed(r, true), Feed(s, true));
    MulXInjective(r, s);
  }

  lemma ClearInjective(r: bv16, s: bv16)
    requires Feed(r, false) == Feed(s, false)
    ensures r == s
  {
    hide Feed, MulX;
    FeedClearBit(r);
    FeedClearBit(s);
    MulXInjective(r, s);
  }

  lemma FeedClearBit(r: bv16)
    ensures Feed(r, false) == MulX(r)
  {
  }

  lemma SumInjective(a: bv16, b: bv16, x: bv16, y: bv16)
    requires x == a ^ 0x1021 && y == b ^ 0x1021 && x == y
    ensures a == b
  {
    Unsum(a, x);
    Unsum(b, y);
  }

  lemma Unsum(a: bv16, x: bv16)
    requires x == a ^ 0x1021
    ensures a == x ^ 0x1021
  {
  }

  // The same bits never merge two registers.
  lemma {:induction false} FeedBitsInjective(r: bv16, s: bv16, t: Poly)
    requires FeedBits(r, t) == FeedBits(s, t)
    ensures r == s
    decreases |t|
  {
    if t != [] {
      var n := |t| - 1;
      FeedInjective(FeedBits(r, t[..n]), FeedBits(s, t[..n]), t[n]);
      FeedBitsInjective(r, s, t[..n]);
    }
  }

  lemma EighthOfOrder(n: nat)
    ensures (8 * n) % ORDER == 0 <==> n % ORDER == 0
  {
    var q, r := n / ORDER, n % ORDER;
    assert 8 * n == ORDER * (8 * q) + 8 * r;
    if (8 * n) % ORDER == 0 {
      var k := 8 * n / ORDER;
      assert n == ORDER * (4096 * k - n);
    }
  }

  lemma PresetPeriod(k: nat)
    ensures MulPow(PRESET, k) == PRESET <==> k % ORDER == 0
  {
    OnesPeriods();
    PeriodIff(PRESET, k);
  }

  lemma EmptyMessage()
    ensures Crc([]) == 0
  {
    CrcOf([], 0xFFFF);
  }

  // n zero bytes in front of a message go unseen exactly when 32767 divides n.
  lemma LeadingZeros(m: seq<bv8>, n: nat)
    ensures Crc(ZeroBytes(n) + m) == Crc(m) <==> n % 32767 == 0
  {
    var s, front := MessageBits(m), MulPow(PRESET, 8 * n);
    BitsConcat(ZeroBytes(n), m);
    ZeroMessageBits(n);
    FeedConcat(PRESET, Zeros(8 * n), s);
    FeedZeros(PRESET, 8 * n);
    PresetPeriod(8 * n);
    EighthOfOrder(n);
    SameRegister(ZeroBytes(n) + m, m);
    if FeedBits(front, s) == FeedBits(PRESET, s) {
      FeedBitsInjective(front, PRESET, s);
    }
  }
}
