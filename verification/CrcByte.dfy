// One byte of crc/crc_ccitt.c: a table look-up advances the register as its eight bits do one by one.
module CrcByte {

  import opened Gf2
  import opened CrcRegister
  import opened CrcTable

  // The bits of a byte, most significant first.
  predicate IsByte(b: bv8, s: Poly) {
    && |s| == 8
    && s[0] == (b >= 0x80)
    && s[1] == ((b << 1) >= 0x80)
    && s[2] == ((b << 2) >= 0x80)
    && s[3] == ((b << 3) >= 0x80)
    && s[4] == ((b << 4) >= 0x80)
    && s[5] == ((b << 5) >= 0x80)
    && s[6] == ((b << 6) >= 0x80)
    && s[7] == ((b << 7) >= 0x80)
  }

  function ByteBits(b: bv8): (s: Poly)
    ensures |s| == 8
  {
    [b >= 0x80, (b << 1) >= 0x80, (b << 2) >= 0x80, (b << 3) >= 0x80,
     (b << 4) >= 0x80, (b << 5) >= 0x80, (b << 6) >= 0x80, (b << 7) >= 0x80]
  }

  // The byte that selects the table entry: the incoming byte added to the high byte of the register.
  function Index(r: bv16, b: bv8): bv8 {
    ((r >> 8) as bv8) ^ b
  }

  // The loop body.
  function LookUp(r: bv16, b: bv8): bv16 {
    CcittTable(Index(r, b) as int) ^ (r << 8)
  }

  lemma HoldsLow(r: bv16, p: Poly)
    requires Holds(r, p)
    ensures Holds(r << 8, p[8..] + Zeros(8))
  {
  }

  lemma HoldsHigh(b: bv8, s: Poly)
    requires IsByte(b, s)
    ensures Holds((b as bv16) << 8, s + Zeros(8))
  {
  }

  lemma IndexIs(r: bv16, p: Poly, b: bv8, s: Poly)
    requires Holds(r, p) && IsByte(b, s)
    ensures IsByte(((r >> 8) as bv8) ^ b, Xor(p[..8], s))
  {
  }

  lemma BitsOfByte(b: bv8)
    ensures IsByte(b, ByteBits(b))
  {
  }

  // The table entry of a byte holds the remainder of that byte times x^16.
  lemma EntryHolds(i: int, b: bv8, s: Poly)
    requires 0 <= i < 256 && i as bv8 == b && IsByte(b, s)
    ensures Holds(CcittTable(i), Remainder(s + Zeros(8), Zeros(8)))
  {
    TableAt(i, b);
    HoldsHigh(b, s);
    HoldsRemainder((b as bv16) << 8, s + Zeros(8), Zeros(8));
    FeedZeros((b as bv16) << 8, 8);
  }

  lemma SumHolds(low: bv16, p: Poly, entry: bv16, q: Poly, sum: Poly)
    requires Holds(low, p) && Holds(entry, q)
    requires sum == Xor(q, p)
    ensures Holds(entry ^ low, sum)
  {
    HoldsXor(entry, q, low, p);
  }

  lemma StepHolds(r: bv16, p: Poly, entry: bv16, q: Poly, sum: Poly)
    requires Holds(r, p) && Holds(entry, q)
    requires sum == Xor(q, p[8..] + Zeros(8))
    ensures Holds(entry ^ (r << 8), sum)
  {
    HoldsLow(r, p);
    SumHolds(r << 8, p[8..] + Zeros(8), entry, q, sum);
  }

  lemma LookUpHoldsAt(r: bv16, p: Poly, b: bv8, s: Poly, i: int)
    requires Holds(r, p) && IsByte(b, s)
    requires 0 <= i < 256 && i as bv8 == Index(r, b)
    ensures Holds(CcittTable(i), Remainder(Xor(p[..8], s) + Zeros(8), Zeros(8)))
  {
    IndexIs(r, p, b, s);
    EntryHolds(i, Index(r, b), Xor(p[..8], s));
  }

  lemma ByteStepHolds(r: bv16, p: Poly, s: Poly, entry: bv16)
    requires Holds(r, p) && |s| == 8
    requires Holds(entry, Remainder(Xor(p[..8], s) + Zeros(8), Zeros(8)))
    ensures Holds(entry ^ (r << 8), Remainder(p, s))
  {
    RemainderByte(p, s);
    StepHolds(r, p, entry, Remainder(Xor(p[..8], s) + Zeros(8), Zeros(8)), Remainder(p, s));
  }

  // One look-up divides by eight more bits.
  lemma LookUpHolds(r: bv16, p: Poly, b: bv8, s: Poly)
    requires Holds(r, p) && IsByte(b, s)
    ensures Holds(LookUp(r, b), Remainder(p, s))
  {
    hide CcittTable, Holds;
    var i := Index(r, b) as int;
    ByteValue(Index(r, b));
    LookUpHoldsAt(r, p, b, s, i);
    ByteStepHolds(r, p, s, CcittTable(i));
  }
}
