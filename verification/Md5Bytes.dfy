// MD5Encode and MD5Decode of md5/md5.c: words as bytes, low-order byte first.
module Md5Bytes {

  import opened Md5Words

  function Zeros(n: nat): (z: seq<uint8>)
    ensures |z| == n && forall i | 0 <= i < n :: z[i] == 0
  {
    seq(n, _ => 0)
  }

  // Four bytes, the low-order one first, as a number.
  function Gather(b0: uint8, b1: uint8, b2: uint8, b3: uint8): uint32 {
    b0 + 0x100 * b1 + 0x1_0000 * b2 + 0x100_0000 * b3
  }

  // The word that four bytes stand for.
  function WordOfBytes(b: seq<uint8>): uint32
    requires |b| == 4
  {
    Gather(b[0], b[1], b[2], b[3])
  }

  function ByteAt(w: uint32, unit: nat): uint8
    requires unit > 0
  {
    var shifted: int := w / unit;
    shifted % 0x100
  }

  function BytesOfWord(w: uint32): (b: seq<uint8>)
    ensures |b| == 4
  {
    [ByteAt(w, 1), ByteAt(w, 0x100), ByteAt(w, 0x1_0000), ByteAt(w, 0x100_0000)]
  }

  function Words(b: seq<uint8>): (w: seq<uint32>)
    requires |b| % 4 == 0
    ensures 4 * |w| == |b|
  {
    if b == [] then [] else Words(b[..|b| - 4]) + [WordOfBytes(b[|b| - 4..])]
  }

  function Bytes(w: seq<uint32>): (b: seq<uint8>)
    ensures |b| == 4 * |w|
  {
    if w == [] then [] else Bytes(w[..|w| - 1]) + BytesOfWord(w[|w| - 1])
  }

  lemma WordRoundTrip(w: uint32)
    ensures WordOfBytes(BytesOfWord(w)) == w
  {
    var w1, w2, w3 := w / 0x100, w / 0x1_0000, w / 0x100_0000;
    DivideMod(w, 0x100);
    DivideMod(w1, 0x100);
    DivideMod(w2, 0x100);
    DivideUnique(w, 0x1_0000, w1 / 0x100, 0x100 * (w1 % 0x100) + w % 0x100);
    DivideUnique(w, 0x100_0000, w2 / 0x100, 0x1_0000 * (w2 % 0x100) + w % 0x1_0000);
  }

  lemma GatherShifts(b0: int, b1: int, b2: int, b3: int)
    requires 0 <= b0 < 0x100 && 0 <= b1 < 0x100 && 0 <= b2 < 0x100 && 0 <= b3 < 0x100
    ensures var w := Gather(b0, b1, b2, b3);
      ByteAt(w, 1) == b0 && ByteAt(w, 0x100) == b1 && ByteAt(w, 0x1_0000) == b2 && ByteAt(w, 0x100_0000) == b3
  {
    var w: int := Gather(b0, b1, b2, b3);
    assert w / 0x100 == b1 + 0x100 * b2 + 0x1_0000 * b3;
    assert w / 0x1_0000 == b2 + 0x100 * b3;
    assert w / 0x100_0000 == b3;
  }

  lemma FourBytesRoundTrip(b: seq<uint8>)
    requires |b| == 4
    ensures BytesOfWord(WordOfBytes(b)) == b
  {
    hide Gather, ByteAt;
    var b0: int, b1: int, b2: int, b3: int := b[0], b[1], b[2], b[3];
    GatherShifts(b0, b1, b2, b3);
  }

  lemma WordsAppend(b: seq<uint8>, c: seq<uint8>)
    requires |b| % 4 == 0 && |c| == 4
    ensures Words(b + c) == Words(b) + [WordOfBytes(c)]
  {
    hide Gather;
    var n := |b|;
    assert (b + c)[..n] == b && (b + c)[n..] == c;
  }

  lemma {:induction false} WordsOfBytes(w: seq<uint32>)
    ensures Words(Bytes(w)) == w
  {
    hide Words, WordOfBytes, BytesOfWord;
    if w != [] {
      var n := |w| - 1;
      WordsOfBytes(w[..n]);
      WordRoundTrip(w[n]);
      WordsAppend(Bytes(w[..n]), BytesOfWord(w[n]));
    }
  }

  lemma {:induction false} BytesOfWords(b: seq<uint8>)
    requires |b| % 4 == 0
    ensures Bytes(Words(b)) == b
  {
    hide Gather, ByteAt;
    if b != [] {
      var n := |b| - 4;
      BytesOfWords(b[..n]);
      FourBytesRoundTrip(b[n..]);
      assert Words(b)[..|Words(b)| - 1] == Words(b[..n]);
    }
  }

  // ----- The bit operations of the code

  lemma Powers()
    ensures Pow2(0) == 1 && Pow2(8) == 0x100 && Pow2(16) == 0x1_0000 && Pow2(24) == 0x100_0000
  {
    PowSplit(4, 4);
    PowSplit(8, 8);
    PowSplit(16, 8);
  }

  // b << shift, for a byte that stays within the word.
  lemma ByteShifted(b: uint8, shift: nat)
    requires b * Pow2(shift) < WORDS
    ensures ShiftLeft(b, shift) == b * Pow2(shift)
  {
    ProductMod(b * Pow2(shift), b * Pow2(shift), 0, WORDS);
  }

  // input[j] | input[j+1] << 8 | input[j+2] << 16 | input[j+3] << 24.
  function OrBytes(b0: uint8, b1: uint8, b2: uint8, b3: uint8): uint32 {
    Or(Or(Or(b0, ShiftLeft(b1, 8)), ShiftLeft(b2, 16)), ShiftLeft(b3, 24))
  }

  lemma OrBytesIs(b0: uint8, b1: uint8, b2: uint8, b3: uint8)
    ensures OrBytes(b0, b1, b2, b3) == Gather(b0, b1, b2, b3)
  {
    hide Or, ShiftLeft;
    Powers();
    ByteShifted(b1, 8);
    ByteShifted(b2, 16);
    ByteShifted(b3, 24);
    OrSum(b0, b1, 8, ShiftLeft(b1, 8));
    OrSum(b0 + 0x100 * b1, b2, 16, ShiftLeft(b2, 16));
    OrSum(b0 + 0x100 * b1 + 0x1_0000 * b2, b3, 24, ShiftLeft(b3, 24));
  }

  // (w >> shift) & 0xFF.
  function MaskedByte(w: uint32, shift: nat): uint32 {
    And(ShiftRight(w, shift), 0xFF)
  }

  lemma MaskedByteIs(w: uint32, shift: nat)
    ensures MaskedByte(w, shift) == ByteAt(w, Pow2(shift))
  {
    hide And, ShiftRight;
    Powers();
    AndMask(ShiftRight(w, shift), 8);
  }

  lemma MaskedBytesAre(w: uint32)
    ensures MaskedByte(w, 0) == ByteAt(w, 1) && MaskedByte(w, 8) == ByteAt(w, 0x100)
    ensures MaskedByte(w, 16) == ByteAt(w, 0x1_0000) && MaskedByte(w, 24) == ByteAt(w, 0x100_0000)
  {
    hide MaskedByte, ByteAt;
    Powers();
    MaskedByteIs(w, 0);
    MaskedByteIs(w, 8);
    MaskedByteIs(w, 16);
    MaskedByteIs(w, 24);
  }

  lemma BytesSnoc(w: seq<uint32>, n: nat)
    requires n < |w|
    ensures Bytes(w[..n + 1]) == Bytes(w[..n]) + BytesOfWord(w[n])
  {
    hide BytesOfWord;
    assert w[..n + 1][..n] == w[..n];
  }

  // output[..len] := the bytes of the first len / 4 words of input.
  method Encode(output: array<uint8>, input: array<uint32>, len: nat)
    requires len % 4 == 0 && len <= output.Length && len <= 4 * input.Length
    modifies output
    ensures output[..len] == Bytes(old(input[..len / 4]))
    ensures output[len..] == old(output[len..])
  {
    hide ByteAt, Bytes, MaskedByte;
    ghost var m := input[..len / 4];
    var i, j := 0, 0;
    assert Bytes(m[..0]) == [];
    while j < len
      invariant j == 4 * i && 0 <= j <= len
      invariant output[..j] == Bytes(m[..i])
      invariant output[j..] == old(output[j..])
    {
      var w := input[i];
      MaskedBytesAre(w);
      output[j] := MaskedByte(w, 0);
      output[j + 1] := MaskedByte(w, 8);
      output[j + 2] := MaskedByte(w, 16);
      output[j + 3] := MaskedByte(w, 24);
      BytesSnoc(m, i);
      assert output[..j + 4] == output[..j] + BytesOfWord(w);
      i := i + 1;
      j := j + 4;
    }
    assert m[..i] == m;
  }

  lemma WordsSnoc(b: seq<uint8>, n: nat)
    requires n % 4 == 0 && n + 4 <= |b|
    ensures Words(b[..n + 4]) == Words(b[..n]) + [Gather(b[n], b[n + 1], b[n + 2], b[n + 3])]
  {
    WordsAppend(b[..n], b[n..n + 4]);
    assert b[..n + 4] == b[..n] + b[n..n + 4];
  }

  // output[..len / 4] := the words of input[at..at + len].
  method Decode(output: array<uint32>, input: array<uint8>, at: nat, len: nat)
    requires len % 4 == 0 && at + len <= input.Length && len <= 4 * output.Length
    modifies output
    ensures output[..len / 4] == Words(input[at..at + len])
    ensures output[len / 4..] == old(output[len / 4..])
  {
    hide Gather, Words, OrBytes;
    ghost var m := input[at..at + len];
    var i, j := 0, 0;
    assert Words(m[..0]) == [];
    while j < len
      invariant j == 4 * i && 0 <= j <= len
      invariant output[..i] == Words(m[..j])
      invariant output[i..] == old(output[i..])
    {
      WordsSnoc(m, j);
      OrBytesIs(m[j], m[j + 1], m[j + 2], m[j + 3]);
      output[i] := OrBytes(input[at + j], input[at + j + 1], input[at + j + 2], input[at + j + 3]);
      i := i + 1;
      j := j + 4;
    }
    assert m[..j] == m;
  }
}
