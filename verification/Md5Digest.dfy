// MD5 of a whole message: sections 3.1 to 3.5 of RFC 1321.
module Md5Digest {

  import opened Md5Words
  import opened Md5Bytes
  import opened Md5Rounds

  // Section 3.3.
  const INIT: State := State(0x6745_2301, 0xEFCD_AB89, 0x98BA_DCFE, 0x1032_5476)

  // The number of bytes in complete blocks.
  function Complete(n: nat): (c: nat)
    ensures c <= n < c + 64 && c % 64 == 0
  {
    n - n % 64
  }

  // The chaining value after the complete blocks of m.
  function Blocks(m: seq<uint8>): State {
    if |m| < 64 then INIT
    else
      var n := Complete(|m|) - 64;
      Next(Blocks(m[..n]), m[n..n + 64])
  }

  // Section 3.1: one byte 0x80, then as few zero bytes as leave eight short of a whole block.
  function Padding(n: nat): (p: seq<uint8>)
    ensures (n + |p| + 8) % 64 == 0 && 1 <= |p| <= 64
  {
    [0x80] + Zeros((55 - n) % 64)
  }

  // Section 3.2: the low-order 64 bits of the length in bits, low-order word first.
  function LengthBytes(bits: nat): (b: seq<uint8>)
    ensures |b| == 8
  {
    Bytes([bits % WORDS, (bits / WORDS) % WORDS])
  }

  function Pad(m: seq<uint8>): (p: seq<uint8>)
    ensures |p| % 64 == 0
  {
    m + Padding(|m|) + LengthBytes(8 * |m|)
  }

  // Section 3.5.
  function Output(s: State): (d: seq<uint8>)
    ensures |d| == 16
  {
    Bytes([s.a, s.b, s.c, s.d])
  }

  function Md5(m: seq<uint8>): (d: seq<uint8>)
    ensures |d| == 16
  {
    Output(Blocks(Pad(m)))
  }

  lemma BlocksAppend(m: seq<uint8>, b: seq<uint8>)
    requires |m| % 64 == 0 && |b| == 64
    ensures Blocks(m + b) == Next(Blocks(m), b)
  {
    hide Next;
    assert (m + b)[..|m|] == m && (m + b)[|m|..|m| + 64] == b;
  }

  // What no complete block holds makes no difference.
  lemma BlocksHead(m: seq<uint8>)
    ensures Blocks(m) == Blocks(m[..Complete(|m|)])
  {
    hide Next, Complete;
    var c := Complete(|m|);
    CompleteWhole(c);
    if |m| >= 64 {
      var n, head := c - 64, m[..c];
      assert head[..n] == m[..n] && head[n..n + 64] == m[n..n + 64];
    }
  }

  lemma CompleteWhole(n: nat)
    requires n % 64 == 0
    ensures Complete(n) == n
  {
  }

  // A block of bytes is taken as its words.
  lemma NextOfWords(s: State, x: Block)
    ensures Next(s, Bytes(x)) == Compress(s, x)
  {
    hide Compress, Words, Bytes;
    WordsOfBytes(x);
  }

  // The chaining value before any block, as the sixteen bytes of section 3.3.
  lemma InitialBytes()
    ensures Output(Blocks([])) == [
      0x01, 0x23, 0x45, 0x67, 0x89, 0xab, 0xcd, 0xef, 0xfe, 0xdc, 0xba, 0x98, 0x76, 0x54, 0x32, 0x10]
  {
    hide Bytes;
    var a, b, c, d: uint32 := 0x6745_2301, 0xEFCD_AB89, 0x98BA_DCFE, 0x1032_5476;
    FourWords(a, b, c, d);
  }

  lemma FourWords(a: uint32, b: uint32, c: uint32, d: uint32)
    ensures Bytes([a, b, c, d]) == BytesOfWord(a) + BytesOfWord(b) + BytesOfWord(c) + BytesOfWord(d)
  {
    hide BytesOfWord;
    var w := [a, b, c, d];
    assert w[..0] == [] && Bytes([]) == [];
    BytesSnoc(w, 0);
    BytesSnoc(w, 1);
    BytesSnoc(w, 2);
    BytesSnoc(w, 3);
    assert w[..4] == w;
  }

  // ----- The padded message

  // A number of bytes, the low-order one first.
  function Number(b: seq<uint8>): nat {
    if b == [] then 0 else b[0] as int + 0x100 * Number(b[1..])
  }

  lemma NumberFirst(b: uint8, rest: seq<uint8>)
    ensures Number([b] + rest) == b as int + 0x100 * Number(rest)
  {
    assert ([b] + rest)[1..] == rest;
  }

  lemma NumberOfFour(b: seq<uint8>, rest: seq<uint8>)
    requires |b| == 4
    ensures Number(b + rest) == WordOfBytes(b) + WORDS * Number(rest)
  {
    hide Number;
    var b3 := [b[3]] + rest;
    var b2 := [b[2]] + b3;
    var b1 := [b[1]] + b2;
    NumberFirst(b[3], rest);
    NumberFirst(b[2], b3);
    NumberFirst(b[1], b2);
    NumberFirst(b[0], b1);
    assert b + rest == [b[0]] + b1;
  }

  lemma NumberOfWord(w: uint32, rest: seq<uint8>)
    ensures Number(BytesOfWord(w) + rest) == w + WORDS * Number(rest)
  {
    hide Number, BytesOfWord, WordOfBytes;
    WordRoundTrip(w);
    NumberOfFour(BytesOfWord(w), rest);
  }

  // The message, one byte with its top bit set, fewer than 64 zero bytes, and the length in bits modulo 2^64 in eight
  // bytes: whole blocks.
  lemma PadShape(m: seq<uint8>)
    ensures
      var p := Pad(m);
      && |p| % 64 == 0 && |m| + 9 <= |p| <= |m| + 72
      && p[..|m|] == m && p[|m|] == 0x80 && (forall i | |m| < i < |p| - 8 :: p[i] == 0)
      && Number(p[|p| - 8..]) == (8 * |m|) % 0x1_0000_0000_0000_0000
  {
    hide Number, LengthBytes;
    PadLength(m);
    LengthTail(m);
    LengthNumber(8 * |m|);
  }

  lemma LengthNumber(bits: nat)
    ensures Number(LengthBytes(bits)) == bits % 0x1_0000_0000_0000_0000
  {
    hide Number, Bytes, BytesOfWord;
    var low, high := bits % WORDS, (bits / WORDS) % WORDS;
    TwoWords(low, high);
    assert BytesOfWord(high) + [] == BytesOfWord(high);
    NumberOfWord(low, BytesOfWord(high));
    NumberOfWord(high, []);
    NumberNone();
    LongLength(bits);
  }

  lemma NumberNone()
    ensures Number([]) == 0
  {
  }

  lemma LongLength(bits: nat)
    ensures bits % WORDS + WORDS * ((bits / WORDS) % WORDS) == bits % 0x1_0000_0000_0000_0000
  {
    var q := bits / WORDS;
    DivideMod(bits, WORDS);
    DivideMod(q, WORDS);
    DivideUnique(bits, 0x1_0000_0000_0000_0000, q / WORDS, bits % WORDS + WORDS * (q % WORDS));
  }

  lemma TwoWords(a: uint32, b: uint32)
    ensures Bytes([a, b]) == BytesOfWord(a) + BytesOfWord(b)
  {
    hide BytesOfWord;
    var w := [a, b];
    assert w[..0] == [] && Bytes([]) == [];
    BytesSnoc(w, 0);
    BytesSnoc(w, 1);
    assert w[..2] == w;
  }

  // ----- Padding is injective

  lemma SameBits(n: nat, n': nat)
    requires n < n' + 64 && n' < n + 64
    requires (8 * n) % WORDS == (8 * n') % WORDS
    ensures n == n'
  {
  }

  lemma LengthWords(bits: nat)
    ensures Words(LengthBytes(bits)) == [bits % WORDS, (bits / WORDS) % WORDS]
  {
    WordsOfBytes([bits % WORDS, (bits / WORDS) % WORDS]);
  }

  lemma LengthTail(m: seq<uint8>)
    ensures Pad(m)[|Pad(m)| - 8..] == LengthBytes(8 * |m|)
    ensures Pad(m)[..|m|] == m
  {
  }

  lemma PadInjective(m: seq<uint8>, m': seq<uint8>)
    ensures Pad(m) == Pad(m') <==> m == m'
  {
    if Pad(m) == Pad(m') {
      hide Pad, LengthBytes;
      LengthTail(m);
      LengthTail(m');
      LengthWords(8 * |m|);
      LengthWords(8 * |m'|);
      PadLength(m);
      PadLength(m');
      SameBits(|m|, |m'|);
    }
  }

  lemma PadLength(m: seq<uint8>)
    ensures |m| + 9 <= |Pad(m)| <= |m| + 72
  {
  }

  // ----- Two messages with one digest give two inputs of the block transform with one result

  lemma OutputInjective(s: State, s': State)
    requires Output(s) == Output(s')
    ensures s == s'
  {
    WordsOfBytes([s.a, s.b, s.c, s.d]);
    WordsOfBytes([s'.a, s'.b, s'.c, s'.d]);
  }

  // Two distinct inputs of the block transform with one result.
  ghost predicate Collide(s: State, x: Block, s': State, x': Block) {
    (s != s' || x != x') && Compress(s, x) == Compress(s', x')
  }

  // The block of p at i and the block of q at j, with the chaining values before them, are such inputs.
  ghost predicate CollideAt(p: seq<uint8>, i: nat, q: seq<uint8>, j: nat) {
    && i % 64 == 0 && i + 64 <= |p| && j % 64 == 0 && j + 64 <= |q|
    && Collide(Blocks(p[..i]), Words(p[i..i + 64]), Blocks(q[..j]), Words(q[j..j + 64]))
  }

  function LastWords(m: seq<uint8>): Block
    requires |m| >= 64
  {
    Words(m[|m| - 64..])
  }

  lemma LastBlock(m: seq<uint8>) returns (s: State, x: Block)
    requires |m| % 64 == 0 && |m| >= 64
    ensures s == Blocks(m[..|m| - 64]) && Blocks(m) == Compress(s, x)
    ensures x == LastWords(m)
  {
    hide Compress, Words;
    s, x := Blocks(m[..|m| - 64]), LastWords(m);
    assert m[|m| - 64..|m|] == m[|m| - 64..];
  }

  lemma CollideBelow(p: seq<uint8>, i: nat, q: seq<uint8>, j: nat, n: nat)
    requires n <= |p| && n <= |q| && CollideAt(p[..n], i, q[..n], j)
    ensures CollideAt(p, i, q, j)
  {
    hide Collide, Blocks, Words;
    assert p[..n][..i] == p[..i] && p[..n][i..i + 64] == p[i..i + 64];
    assert q[..n][..j] == q[..j] && q[..n][j..j + 64] == q[j..j + 64];
  }

  // From the end, the first place where the inputs of the block transform differ.
  lemma {:induction false} BlocksCollision(p: seq<uint8>, q: seq<uint8>) returns (i: nat)
    requires |p| % 64 == 0 && |p| == |q|
    ensures Blocks(p) == Blocks(q) && p != q ==> CollideAt(p, i, q, i)
    decreases |p|
  {
    hide Compress, Words, Blocks;
    i := 0;
    if p != q && Blocks(p) == Blocks(q) {
      i := |p| - 64;
      var s, x := LastBlock(p);
      var s', x' := LastBlock(q);
      assert p[i..i + 64] == p[i..] && q[i..i + 64] == q[i..];
      if s == s' && x == x' {
        BytesOfWords(p[i..]);
        BytesOfWords(q[i..]);
        assert p == p[..i] + p[i..] && q == q[..i] + q[i..];
        var n := i;
        i := BlocksCollision(p[..n], q[..n]);
        CollideBelow(p, i, q, i, n);
      }
    }
  }

  lemma SameCount(n: nat, n': nat)
    requires n < 0x2000_0000_0000_0000 && n' < 0x2000_0000_0000_0000
    requires (8 * n) % WORDS == (8 * n') % WORDS && (8 * n / WORDS) % WORDS == (8 * n' / WORDS) % WORDS
    ensures n == n'
  {
  }

  lemma LengthInLastBlock(m: seq<uint8>)
    ensures |Pad(m)| >= 64 && Pad(m)[|Pad(m)| - 64..][56..] == LengthBytes(8 * |m|)
  {
    hide Pad, LengthBytes;
    PadLength(m);
    LengthTail(m);
    var p := Pad(m);
    assert p[|p| - 64..][56..] == p[|p| - 8..];
  }

  // The last blocks carry the lengths, so they differ when the lengths do.
  lemma DifferentLengths(m: seq<uint8>, m': seq<uint8>)
    requires |m| < 0x2000_0000_0000_0000 && |m'| < 0x2000_0000_0000_0000
    ensures |Pad(m)| >= 64 && |Pad(m')| >= 64
    ensures Blocks(Pad(m)) == Blocks(Pad(m')) && |m| != |m'| ==>
              CollideAt(Pad(m), |Pad(m)| - 64, Pad(m'), |Pad(m')| - 64)
  {
    hide Compress, Words, Blocks, Pad, LengthBytes;
    PadLength(m);
    PadLength(m');
    var p, p' := Pad(m), Pad(m');
    var s, x := LastBlock(p);
    var s', x' := LastBlock(p');
    assert p[|p| - 64..|p| - 64 + 64] == p[|p| - 64..] && p'[|p'| - 64..|p'| - 64 + 64] == p'[|p'| - 64..];
    if x == x' {
      BytesOfWords(p[|p| - 64..]);
      BytesOfWords(p'[|p'| - 64..]);
      LengthInLastBlock(m);
      LengthInLastBlock(m');
      LengthWords(8 * |m|);
      LengthWords(8 * |m'|);
      SameCount(|m|, |m'|);
    }
  }

  // Two messages with one digest show where the block transform collides while they are digested: at the same
  // distance from the ends of their padded forms.
  lemma DigestCollision(m: seq<uint8>, m': seq<uint8>) returns (i: nat, j: nat)
    requires |m| < 0x2000_0000_0000_0000 && |m'| < 0x2000_0000_0000_0000
    ensures Md5(m) == Md5(m') && m != m' ==>
              CollideAt(Pad(m), i, Pad(m'), j) && |Pad(m)| - i == |Pad(m')| - j
  {
    hide Compress, Words, Blocks, Pad, Output;
    DifferentLengths(m, m');
    i, j := |Pad(m)| - 64, |Pad(m')| - 64;
    if Md5(m) == Md5(m') && m != m' {
      OutputInjective(Blocks(Pad(m)), Blocks(Pad(m')));
      if |m| == |m'| {
        PadInjective(m, m');
        SameLength(m, m');
        i := BlocksCollision(Pad(m), Pad(m'));
        j := i;
      }
    }
  }

  lemma SameLength(m: seq<uint8>, m': seq<uint8>)
    requires |m| == |m'|
    ensures |Pad(m)| == |Pad(m')|
  {
  }
}
