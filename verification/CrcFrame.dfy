// A message followed by its CRC, high byte first, and the receiver's check over the whole frame.
module CrcFrame {

  import opened Gf2
  import opened CrcTable
  import opened CrcByte
  import opened CrcMessage
  import opened CrcDetection

  // The value crc_ccitt returns over every intact frame.
  const GOOD: bv16 := 0xE2F0

  function CrcBytes(c: bv16): (b: seq<bv8>)
    ensures |b| == 2
  {
    [(c >> 8) as bv8, (c & 0xFF) as bv8]
  }

  function Frame(m: seq<bv8>): (f: seq<bv8>)
    ensures |f| == |m| + 2
  {
    m + CrcBytes(Crc(m))
  }

  lemma RegisterSnoc(m: seq<bv8>, b: bv8)
    ensures Register(m + [b]) == LookUp(Register(m), b)
  {
    var f := m + [b];
    assert f[..|m|] == m && f[..|m| + 1] == f;
    MessageHolds(m);
    NextByte(f, Register(m), |m|);
    RegisterIs(f, LookUp(Register(m), b));
  }

  // The two CRC bytes leave the same register behind, whatever the message left.
  lemma Residue(r: bv16)
    ensures var c := !r; LookUp(LookUp(r, (c >> 8) as bv8), (c & 0xFF) as bv8) == 0x1D0F
  {
    var c := !r;
    assert Index(r, (c >> 8) as bv8) == 0xFF;
    assert CcittTable(255) == 0x1EF0;
  }

  lemma FrameAccepted(m: seq<bv8>)
    ensures Crc(Frame(m)) == GOOD
  {
    var c := CrcBytes(Crc(m));
    RegisterSnoc(m, c[0]);
    RegisterSnoc(m + [c[0]], c[1]);
    assert Frame(m) == m + [c[0]] + [c[1]];
    Residue(Register(m));
    CrcOf(Frame(m), 0x1D0F);
  }

  // The bits of a message come before those of what is appended to it.
  lemma {:induction false} BitsConcat(m: seq<bv8>, t: seq<bv8>)
    ensures MessageBits(m + t) == MessageBits(m) + MessageBits(t)
    decreases |t|
  {
    if t == [] {
      assert m + t == m;
    } else {
      var n := |t| - 1;
      BitsConcat(m, t[..n]);
      assert (m + t)[..|m| + n] == m + t[..n];
    }
  }

  // The receiver's check holds of exactly one pair of bytes after each message: its CRC.
  lemma AcceptedIff(m: seq<bv8>, b: seq<bv8>)
    requires |b| == 2
    ensures Crc(m + b) == GOOD <==> b == CrcBytes(Crc(m))
  {
    FrameAccepted(m);
    if b != CrcBytes(Crc(m)) {
      BitsConcat(m, b);
      BitsConcat(m, CrcBytes(Crc(m)));
      assert m + b != Frame(m) by {
        assert (m + b)[|m|..] == b && Frame(m)[|m|..] == CrcBytes(Crc(m));
      }
      BurstDetected(m + b, Frame(m), 8 * |m|);
    }
  }

  // The receiver takes a damaged frame for good exactly when the damage is a multiple of the generator.
  lemma DamageAcceptedIff(m: seq<bv8>, f: seq<bv8>)
    requires |f| == |m| + 2
    ensures Crc(f) == GOOD <==> IsMultiple(Difference(f, Frame(m)))
  {
    FrameAccepted(m);
    UndetectedIff(f, Frame(m));
  }

  // In frames of at most 32767 bits, CRC included, one to three wrong bits or one burst of up to 16 are caught.
  lemma DamageCaught(m: seq<bv8>, f: seq<bv8>, a: nat)
    requires |f| == |m| + 2 && f != Frame(m)
    requires
      || (8 * |f| <= 32767 && 1 <= Weight(Difference(f, Frame(m))) <= 3)
      || (forall i | 0 <= i < 8 * |f| && Difference(f, Frame(m))[i] :: a <= i < a + 16)
    ensures Crc(f) != GOOD
  {
    FrameAccepted(m);
    if 8 * |f| <= 32767 && 1 <= Weight(Difference(f, Frame(m))) <= 3 {
      FewErrorsDetected(f, Frame(m));
    } else {
      BurstDetected(f, Frame(m), a);
    }
  }
}
