// The block transform of md5/md5.c: the 64 steps of section 3.4 of RFC 1321, and the unrolled code against them.
module Md5Rounds {

  import opened Md5Words
  import opened Md5Bytes

  datatype State = State(a: uint32, b: uint32, c: uint32, d: uint32)

  // A block as its sixteen words.
  type Block = x: seq<uint32> | |x| == 16 witness seq(16, _ => 0)

  // ----- Section 3.4 of RFC 1321

  const T_F: seq<uint32> := [
    0xd76aa478, 0xe8c7b756, 0x242070db, 0xc1bdceee, 0xf57c0faf, 0x4787c62a, 0xa8304613, 0xfd469501,
    0x698098d8, 0x8b44f7af, 0xffff5bb1, 0x895cd7be, 0x6b901122, 0xfd987193, 0xa679438e, 0x49b40821]

  const T_G: seq<uint32> := [
    0xf61e2562, 0xc040b340, 0x265e5a51, 0xe9b6c7aa, 0xd62f105d, 0x02441453, 0xd8a1e681, 0xe7d3fbc8,
    0x21e1cde6, 0xc33707d6, 0xf4d50d87, 0x455a14ed, 0xa9e3e905, 0xfcefa3f8, 0x676f02d9, 0x8d2a4c8a]

  const T_H: seq<uint32> := [
    0xfffa3942, 0x8771f681, 0x6d9d6122, 0xfde5380c, 0xa4beea44, 0x4bdecfa9, 0xf6bb4b60, 0xbebfbc70,
    0x289b7ec6, 0xeaa127fa, 0xd4ef3085, 0x04881d05, 0xd9d4d039, 0xe6db99e5, 0x1fa27cf8, 0xc4ac5665]

  const T_I: seq<uint32> := [
    0xf4292244, 0x432aff97, 0xab9423a7, 0xfc93a039, 0x655b59c3, 0x8f0ccc92, 0xffeff47d, 0x85845dd1,
    0x6fa87e4f, 0xfe2ce6e0, 0xa3014314, 0x4e0811a1, 0xf7537e82, 0xbd3af235, 0x2ad7d2bb, 0xeb86d391]

  // The additive constant of step i.
  function T(i: nat): uint32
    requires i < 64
  {
    if i < 16 then T_F[i] else if i < 32 then T_G[i - 16] else if i < 48 then T_H[i - 32] else T_I[i - 48]
  }

  // The word of the block that step i takes.
  function WordOf(i: nat): (k: nat)
    ensures k < 16
  {
    if i < 16 then i else if i < 32 then (5 * i + 1) % 16 else if i < 48 then (3 * i + 5) % 16 else (7 * i) % 16
  }

  function Word(i: nat, x: Block): uint32 {
    x[WordOf(i)]
  }

  // The rotation of step i.
  function Rotation(i: nat): (s: nat)
    ensures 0 < s < 32
  {
    if i < 16 then [7, 12, 17, 22][i % 4]
    else if i < 32 then [5, 9, 14, 20][i % 4]
    else if i < 48 then [4, 11, 16, 23][i % 4]
    else [6, 10, 15, 21][i % 4]
  }

  function Mix(i: nat, x: uint32, y: uint32, z: uint32): uint32 {
    if i < 16 then F(x, y, z) else if i < 32 then G(x, y, z) else if i < 48 then H(x, y, z) else I(x, y, z)
  }

  // The operation [abcd k s i]: the new value of a.
  function Operation(i: nat, a: uint32, b: uint32, c: uint32, d: uint32, x: Block): uint32
    requires i < 64
  {
    Add(b, RotateLeft(Add(Add(Add(a, Mix(i, b, c, d)), Word(i, x)), T(i)), Rotation(i)))
  }

  // One step, after which the four words have moved on by one role.
  function Step(i: nat, s: State, x: Block): State
    requires i < 64
  {
    State(s.d, Operation(i, s.a, s.b, s.c, s.d, x), s.b, s.c)
  }

  // Steps first to n - 1.
  function Steps(first: nat, n: nat, s: State, x: Block): State
    requires first <= n <= 64
  {
    if n == first then s else Step(n - 1, Steps(first, n - 1, s, x), x)
  }

  // The chaining value after a block.
  function Compress(s: State, x: Block): State {
    var t := Steps(0, 64, s, x);
    State(Add(s.a, t.a), Add(s.b, t.b), Add(s.c, t.c), Add(s.d, t.d))
  }

  // The same on the 64 bytes of the block.
  function Next(s: State, b: seq<uint8>): State
    requires |b| == 64
  {
    Compress(s, Words(b))
  }

  // ----- The step macros of md5.h: the sum, rotated, plus b

  function Round(a: uint32, b: uint32, mix: uint32, x: uint32, s: nat, ac: uint32): uint32
    requires s <= 32
  {
    Add(RotateLeft(Add(a, Add(Add(mix, x), ac)), s), b)
  }

  function FF(a: uint32, b: uint32, c: uint32, d: uint32, x: uint32, s: nat, ac: uint32): uint32
    requires s <= 32
  {
    Round(a, b, F(b, c, d), x, s, ac)
  }

  function GG(a: uint32, b: uint32, c: uint32, d: uint32, x: uint32, s: nat, ac: uint32): uint32
    requires s <= 32
  {
    Round(a, b, G(b, c, d), x, s, ac)
  }

  function HH(a: uint32, b: uint32, c: uint32, d: uint32, x: uint32, s: nat, ac: uint32): uint32
    requires s <= 32
  {
    Round(a, b, H(b, c, d), x, s, ac)
  }

  function II(a: uint32, b: uint32, c: uint32, d: uint32, x: uint32, s: nat, ac: uint32): uint32
    requires s <= 32
  {
    Round(a, b, I(b, c, d), x, s, ac)
  }

  lemma RoundIs(a: uint32, b: uint32, mix: uint32, x: uint32, s: nat, ac: uint32)
    requires s <= 32
    ensures Round(a, b, mix, x, s, ac) == Add(b, RotateLeft(Add(Add(Add(a, mix), x), ac), s))
  {
    AddAssoc(a, mix, x);
    AddAssoc(a, Add(mix, x), ac);
    AddAssoc(RotateLeft(Add(Add(Add(a, mix), x), ac), s), b, 0);
  }

  lemma {:induction false} StepsThen(first: nat, middle: nat, n: nat, s: State, x: Block)
    requires first <= middle <= n <= 64
    ensures Steps(first, n, s, x) == Steps(middle, n, Steps(first, middle, s, x), x)
  {
    hide Step;
    if middle < n {
      StepsThen(first, middle, n - 1, s, x);
    }
  }

  // Four steps bring every word back to its role.
  lemma FourSteps(first: nat, n: nat, s: State, x: Block)
    requires first <= n && n + 4 <= 64
    ensures
      var r := Steps(first, n, s, x);
      var a := Operation(n, r.a, r.b, r.c, r.d, x);
      var d := Operation(n + 1, r.d, a, r.b, r.c, x);
      var c := Operation(n + 2, r.c, d, a, r.b, x);
      var b := Operation(n + 3, r.b, c, d, a, x);
      Steps(first, n + 4, s, x) == State(a, b, c, d)
  {
    hide Operation;
    var r := Steps(first, n, s, x);
    assert Steps(first, n + 1, s, x) == Step(n, r, x);
    assert Steps(first, n + 2, s, x) == Step(n + 1, Step(n, r, x), x);
    assert Steps(first, n + 3, s, x) == Step(n + 2, Step(n + 1, Step(n, r, x), x), x);
  }

  lemma FFIs(i: nat, a: uint32, b: uint32, c: uint32, d: uint32, x: Block)
    requires 0 <= i < 16
    ensures FF(a, b, c, d, Word(i, x), Rotation(i), T(i)) == Operation(i, a, b, c, d, x)
  {
    hide F, Add, RotateLeft, T, Word, Rotation;
    RoundIs(a, b, F(b, c, d), Word(i, x), Rotation(i), T(i));
  }

  lemma GGIs(i: nat, a: uint32, b: uint32, c: uint32, d: uint32, x: Block)
    requires 16 <= i < 32
    ensures GG(a, b, c, d, Word(i, x), Rotation(i), T(i)) == Operation(i, a, b, c, d, x)
  {
    hide G, Add, RotateLeft, T, Word, Rotation;
    RoundIs(a, b, G(b, c, d), Word(i, x), Rotation(i), T(i));
  }

  lemma HHIs(i: nat, a: uint32, b: uint32, c: uint32, d: uint32, x: Block)
    requires 32 <= i < 48
    ensures HH(a, b, c, d, Word(i, x), Rotation(i), T(i)) == Operation(i, a, b, c, d, x)
  {
    hide H, Add, RotateLeft, T, Word, Rotation;
    RoundIs(a, b, H(b, c, d), Word(i, x), Rotation(i), T(i));
  }

  lemma IIIs(i: nat, a: uint32, b: uint32, c: uint32, d: uint32, x: Block)
    requires 48 <= i < 64
    ensures II(a, b, c, d, Word(i, x), Rotation(i), T(i)) == Operation(i, a, b, c, d, x)
  {
    hide I, Add, RotateLeft, T, Word, Rotation;
    RoundIs(a, b, I(b, c, d), Word(i, x), Rotation(i), T(i));
  }
}
