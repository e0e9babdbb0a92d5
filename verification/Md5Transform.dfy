// MD5Transform of md5/md5.c: the 64 unrolled assignments are the 64 steps.
module Md5Transform {

  import opened Md5Words
  import opened Md5Rounds
  import opened Md5Bytes

  // Four FF assignments from step n on.
  lemma FourFF(first: nat, n: nat, s: State, x: Block)
    requires first <= n && 0 <= n <= 12
    ensures
      var r := Steps(first, n, s, x);
      var a := FF(r.a, r.b, r.c, r.d, Word(n, x), Rotation(n), T(n));
      var d := FF(r.d, a, r.b, r.c, Word(n + 1, x), Rotation(n + 1), T(n + 1));
      var c := FF(r.c, d, a, r.b, Word(n + 2, x), Rotation(n + 2), T(n + 2));
      var b := FF(r.b, c, d, a, Word(n + 3, x), Rotation(n + 3), T(n + 3));
      Steps(first, n + 4, s, x) == State(a, b, c, d)
  {
    hide Add, RotateLeft, FF, GG, HH, II, Operation, Steps, T, Word, Rotation;
    var r := Steps(first, n, s, x);
    FourSteps(first, n, s, x);
    FFIs(n, r.a, r.b, r.c, r.d, x);
    var a := Operation(n, r.a, r.b, r.c, r.d, x);
    FFIs(n + 1, r.d, a, r.b, r.c, x);
    var d := Operation(n + 1, r.d, a, r.b, r.c, x);
    FFIs(n + 2, r.c, d, a, r.b, x);
    var c := Operation(n + 2, r.c, d, a, r.b, x);
    FFIs(n + 3, r.b, c, d, a, x);
  }

  // Four GG assignments from step n on.
  lemma FourGG(first: nat, n: nat, s: State, x: Block)
    requires first <= n && 16 <= n <= 28
    ensures
      var r := Steps(first, n, s, x);
      var a := GG(r.a, r.b, r.c, r.d, Word(n, x), Rotation(n), T(n));
      var d := GG(r.d, a, r.b, r.c, Word(n + 1, x), Rotation(n + 1), T(n + 1));
      var c := GG(r.c, d, a, r.b, Word(n + 2, x), Rotation(n + 2), T(n + 2));
      var b := GG(r.b, c, d, a, Word(n + 3, x), Rotation(n + 3), T(n + 3));
      Steps(first, n + 4, s, x) == State(a, b, c, d)
  {
    hide Add, RotateLeft, FF, GG, HH, II, Operation, Steps, T, Word, Rotation;
    var r := Steps(first, n, s, x);
    FourSteps(first, n, s, x);
    GGIs(n, r.a, r.b, r.c, r.d, x);
    var a := Operation(n, r.a, r.b, r.c, r.d, x);
    GGIs(n + 1, r.d, a, r.b, r.c, x);
    var d := Operation(n + 1, r.d, a, r.b, r.c, x);
    GGIs(n + 2, r.c, d, a, r.b, x);
    var c := Operation(n + 2, r.c, d, a, r.b, x);
    GGIs(n + 3, r.b, c, d, a, x);
  }

  // Four HH assignments from step n on.
  lemma FourHH(first: nat, n: nat, s: State, x: Block)
    requires first <= n && 32 <= n <= 44
    ensures
      var r := Steps(first, n, s, x);
      var a := HH(r.a, r.b, r.c, r.d, Word(n, x), Rotation(n), T(n));
      var d := HH(r.d, a, r.b, r.c, Word(n + 1, x), Rotation(n + 1), T(n + 1));
      var c := HH(r.c, d, a, r.b, Word(n + 2, x), Rotation(n + 2), T(n + 2));
      var b := HH(r.b, c, d, a, Word(n + 3, x), Rotation(n + 3), T(n + 3));
      Steps(first, n + 4, s, x) == State(a, b, c, d)
  {
    hide Add, RotateLeft, FF, GG, HH, II, Operation, Steps, T, Word, Rotation;
    var r := Steps(first, n, s, x);
    FourSteps(first, n, s, x);
    HHIs(n, r.a, r.b, r.c, r.d, x);
    var a := Operation(n, r.a, r.b, r.c, r.d, x);
    HHIs(n + 1, r.d, a, r.b, r.c, x);
    var d := Operation(n + 1, r.d, a, r.b, r.c, x);
    HHIs(n + 2, r.c, d, a, r.b, x);
    var c := Operation(n + 2, r.c, d, a, r.b, x);
    HHIs(n + 3, r.b, c, d, a, x);
  }

  // Four II assignments from step n on.
  lemma FourII(first: nat, n: nat, s: State, x: Block)
    requires first <= n && 48 <= n <= 60
    ensures
      var r := Steps(first, n, s, x);
      var a := II(r.a, r.b, r.c, r.d, Word(n, x), Rotation(n), T(n));
      var d := II(r.d, a, r.b, r.c, Word(n + 1, x), Rotation(n + 1), T(n + 1));
      var c := II(r.c, d, a, r.b, Word(n + 2, x), Rotation(n + 2), T(n + 2));
      var b := II(r.b, c, d, a, Word(n + 3, x), Rotation(n + 3), T(n + 3));
      Steps(first, n + 4, s, x) == State(a, b, c, d)
  {
    hide Add, RotateLeft, FF, GG, HH, II, Operation, Steps, T, Word, Rotation;
    var r := Steps(first, n, s, x);
    FourSteps(first, n, s, x);
    IIIs(n, r.a, r.b, r.c, r.d, x);
    var a := Operation(n, r.a, r.b, r.c, r.d, x);
    IIIs(n + 1, r.d, a, r.b, r.c, x);
    var d := Operation(n + 1, r.d, a, r.b, r.c, x);
    IIIs(n + 2, r.c, d, a, r.b, x);
    var c := Operation(n + 2, r.c, d, a, r.b, x);
    IIIs(n + 3, r.b, c, d, a, x);
  }

  // Steps 1 to 16 of the unrolled code.
  method FirstRound(a0: uint32, b0: uint32, c0: uint32, d0: uint32, x: Block)
    returns (a: uint32, b: uint32, c: uint32, d: uint32)
    ensures State(a, b, c, d) == Steps(0, 16, State(a0, b0, c0, d0), x)
  {
    hide FF, Steps, T, Word, Rotation;
    ghost var s := State(a0, b0, c0, d0);
    StepsNone(0, s, x);
    WordsFF(x);
    AdditionsFF();
    RotationsFF();
    a, b, c, d := a0, b0, c0, d0;
    FourFF(0, 0, s, x);
    a := FF(a, b, c, d, x[0], 7, 0xd76aa478);
    d := FF(d, a, b, c, x[1], 12, 0xe8c7b756);
    c := FF(c, d, a, b, x[2], 17, 0x242070db);
    b := FF(b, c, d, a, x[3], 22, 0xc1bdceee);
    FourFF(0, 4, s, x);
    a := FF(a, b, c, d, x[4], 7, 0xf57c0faf);
    d := FF(d, a, b, c, x[5], 12, 0x4787c62a);
    c := FF(c, d, a, b, x[6], 17, 0xa8304613);
    b := FF(b, c, d, a, x[7], 22, 0xfd469501);
    FourFF(0, 8, s, x);
    a := FF(a, b, c, d, x[8], 7, 0x698098d8);
    d := FF(d, a, b, c, x[9], 12, 0x8b44f7af);
    c := FF(c, d, a, b, x[10], 17, 0xffff5bb1);
    b := FF(b, c, d, a, x[11], 22, 0x895cd7be);
    FourFF(0, 12, s, x);
    a := FF(a, b, c, d, x[12], 7, 0x6b901122);
    d := FF(d, a, b, c, x[13], 12, 0xfd987193);
    c := FF(c, d, a, b, x[14], 17, 0xa679438e);
    b := FF(b, c, d, a, x[15], 22, 0x49b40821);
  }

  // Steps 17 to 32 of the unrolled code.
  method SecondRound(a0: uint32, b0: uint32, c0: uint32, d0: uint32, x: Block)
    returns (a: uint32, b: uint32, c: uint32, d: uint32)
    ensures State(a, b, c, d) == Steps(16, 32, State(a0, b0, c0, d0), x)
  {
    hide GG, Steps, T, Word, Rotation;
    ghost var s := State(a0, b0, c0, d0);
    StepsNone(16, s, x);
    WordsGG(x);
    AdditionsGG();
    RotationsGG();
    a, b, c, d := a0, b0, c0, d0;
    FourGG(16, 16, s, x);
    a := GG(a, b, c, d, x[1], 5, 0xf61e2562);
    d := GG(d, a, b, c, x[6], 9, 0xc040b340);
    c := GG(c, d, a, b, x[11], 14, 0x265e5a51);
    b := GG(b, c, d, a, x[0], 20, 0xe9b6c7aa);
    FourGG(16, 20, s, x);
    a := GG(a, b, c, d, x[5], 5, 0xd62f105d);
    d := GG(d, a, b, c, x[10], 9, 0x2441453);
    c := GG(c, d, a, b, x[15], 14, 0xd8a1e681);
    b := GG(b, c, d, a, x[4], 20, 0xe7d3fbc8);
    FourGG(16, 24, s, x);
    a := GG(a, b, c, d, x[9], 5, 0x21e1cde6);
    d := GG(d, a, b, c, x[14], 9, 0xc33707d6);
    c := GG(c, d, a, b, x[3], 14, 0xf4d50d87);
    b := GG(b, c, d, a, x[8], 20, 0x455a14ed);
    FourGG(16, 28, s, x);
    a := GG(a, b, c, d, x[13], 5, 0xa9e3e905);
    d := GG(d, a, b, c, x[2], 9, 0xfcefa3f8);
    c := GG(c, d, a, b, x[7], 14, 0x676f02d9);
    b := GG(b, c, d, a, x[12], 20, 0x8d2a4c8a);
  }

  // Steps 33 to 48 of the unrolled code.
  method ThirdRound(a0: uint32, b0: uint32, c0: uint32, d0: uint32, x: Block)
    returns (a: uint32, b: uint32, c: uint32, d: uint32)
    ensures State(a, b, c, d) == Steps(32, 48, State(a0, b0, c0, d0), x)
  {
    hide HH, Steps, T, Word, Rotation;
    ghost var s := State(a0, b0, c0, d0);
    StepsNone(32, s, x);
    WordsHH(x);
    AdditionsHH();
    RotationsHH();
    a, b, c, d := a0, b0, c0, d0;
    FourHH(32, 32, s, x);
    a := HH(a, b, c, d, x[5], 4, 0xfffa3942);
    d := HH(d, a, b, c, x[8], 11, 0x8771f681);
    c := HH(c, d, a, b, x[11], 16, 0x6d9d6122);
    b := HH(b, c, d, a, x[14], 23, 0xfde5380c);
    FourHH(32, 36, s, x);
    a := HH(a, b, c, d, x[1], 4, 0xa4beea44);
    d := HH(d, a, b, c, x[4], 11, 0x4bdecfa9);
    c := HH(c, d, a, b, x[7], 16, 0xf6bb4b60);
    b := HH(b, c, d, a, x[10], 23, 0xbebfbc70);
    FourHH(32, 40, s, x);
    a := HH(a, b, c, d, x[13], 4, 0x289b7ec6);
    d := HH(d, a, b, c, x[0], 11, 0xeaa127fa);
    c := HH(c, d, a, b, x[3], 16, 0xd4ef3085);
    b := HH(b, c, d, a, x[6], 23, 0x4881d05);
    FourHH(32, 44, s, x);
    a := HH(a, b, c, d, x[9], 4, 0xd9d4d039);
    d := HH(d, a, b, c, x[12], 11, 0xe6db99e5);
    c := HH(c, d, a, b, x[15], 16, 0x1fa27cf8);
    b := HH(b, c, d, a, x[2], 23, 0xc4ac5665);
  }

  // Steps 49 to 64 of the unrolled code.
  method FourthRound(a0: uint32, b0: uint32, c0: uint32, d0: uint32, x: Block)
    returns (a: uint32, b: uint32, c: uint32, d: uint32)
    ensures State(a, b, c, d) == Steps(48, 64, State(a0, b0, c0, d0), x)
  {
    hide II, Steps, T, Word, Rotation;
    ghost var s := State(a0, b0, c0, d0);
    StepsNone(48, s, x);
    WordsII(x);
    AdditionsII();
    RotationsII();
    a, b, c, d := a0, b0, c0, d0;
    FourII(48, 48, s, x);
    a := II(a, b, c, d, x[0], 6, 0xf4292244);
    d := II(d, a, b, c, x[7], 10, 0x432aff97);
    c := II(c, d, a, b, x[14], 15, 0xab9423a7);
    b := II(b, c, d, a, x[5], 21, 0xfc93a039);
    FourII(48, 52, s, x);
    a := II(a, b, c, d, x[12], 6, 0x655b59c3);
    d := II(d, a, b, c, x[3], 10, 0x8f0ccc92);
    c := II(c, d, a, b, x[10], 15, 0xffeff47d);
    b := II(b, c, d, a, x[1], 21, 0x85845dd1);
    FourII(48, 56, s, x);
    a := II(a, b, c, d, x[8], 6, 0x6fa87e4f);
    d := II(d, a, b, c, x[15], 10, 0xfe2ce6e0);
    c := II(c, d, a, b, x[6], 15, 0xa3014314);
    b := II(b, c, d, a, x[13], 21, 0x4e0811a1);
    FourII(48, 60, s, x);
    a := II(a, b, c, d, x[4], 6, 0xf7537e82);
    d := II(d, a, b, c, x[11], 10, 0xbd3af235);
    c := II(c, d, a, b, x[2], 15, 0x2ad7d2bb);
    b := II(b, c, d, a, x[9], 21, 0xeb86d391);
  }

  lemma StepsNone(first: nat, s: State, x: Block)
    requires first <= 64
    ensures Steps(first, first, s, x) == s
  {
  }

  // The words, rotations and constants of each round, spelled out.
  lemma WordsFF(x: Block)
    ensures Word(0, x) == x[0] && Word(1, x) == x[1] && Word(2, x) == x[2] && Word(3, x) == x[3]
    ensures Word(4, x) == x[4] && Word(5, x) == x[5] && Word(6, x) == x[6] && Word(7, x) == x[7]
    ensures Word(8, x) == x[8] && Word(9, x) == x[9] && Word(10, x) == x[10] && Word(11, x) == x[11]
    ensures Word(12, x) == x[12] && Word(13, x) == x[13] && Word(14, x) == x[14] && Word(15, x) == x[15]
  {
  }

  lemma AdditionsFF()
    ensures T(0) == 0xd76aa478 && T(1) == 0xe8c7b756 && T(2) == 0x242070db && T(3) == 0xc1bdceee
    ensures T(4) == 0xf57c0faf && T(5) == 0x4787c62a && T(6) == 0xa8304613 && T(7) == 0xfd469501
    ensures T(8) == 0x698098d8 && T(9) == 0x8b44f7af && T(10) == 0xffff5bb1 && T(11) == 0x895cd7be
    ensures T(12) == 0x6b901122 && T(13) == 0xfd987193 && T(14) == 0xa679438e && T(15) == 0x49b40821
  {
  }

  lemma RotationsFF()
    ensures Rotation(0) == 7 && Rotation(1) == 12 && Rotation(2) == 17 && Rotation(3) == 22
    ensures Rotation(4) == 7 && Rotation(5) == 12 && Rotation(6) == 17 && Rotation(7) == 22
    ensures Rotation(8) == 7 && Rotation(9) == 12 && Rotation(10) == 17 && Rotation(11) == 22
    ensures Rotation(12) == 7 && Rotation(13) == 12 && Rotation(14) == 17 && Rotation(15) == 22
  {
  }

  lemma WordsGG(x: Block)
    ensures Word(16, x) == x[1] && Word(17, x) == x[6] && Word(18, x) == x[11] && Word(19, x) == x[0]
    ensures Word(20, x) == x[5] && Word(21, x) == x[10] && Word(22, x) == x[15] && Word(23, x) == x[4]
    ensures Word(24, x) == x[9] && Word(25, x) == x[14] && Word(26, x) == x[3] && Word(27, x) == x[8]
    ensures Word(28, x) == x[13] && Word(29, x) == x[2] && Word(30, x) == x[7] && Word(31, x) == x[12]
  {
  }

  lemma AdditionsGG()
    ensures T(16) == 0xf61e2562 && T(17) == 0xc040b340 && T(18) == 0x265e5a51 && T(19) == 0xe9b6c7aa
    ensures T(20) == 0xd62f105d && T(21) == 0x2441453 && T(22) == 0xd8a1e681 && T(23) == 0xe7d3fbc8
    ensures T(24) == 0x21e1cde6 && T(25) == 0xc33707d6 && T(26) == 0xf4d50d87 && T(27) == 0x455a14ed
    ensures T(28) == 0xa9e3e905 && T(29) == 0xfcefa3f8 && T(30) == 0x676f02d9 && T(31) == 0x8d2a4c8a
  {
  }

  lemma RotationsGG()
    ensures Rotation(16) == 5 && Rotation(17) == 9 && Rotation(18) == 14 && Rotation(19) == 20
    ensures Rotation(20) == 5 && Rotation(21) == 9 && Rotation(22) == 14 && Rotation(23) == 20
    ensures Rotation(24) == 5 && Rotation(25) == 9 && Rotation(26) == 14 && Rotation(27) == 20
    ensures Rotation(28) == 5 && Rotation(29) == 9 && Rotation(30) == 14 && Rotation(31) == 20
  {
  }

  lemma WordsHH(x: Block)
    ensures Word(32, x) == x[5] && Word(33, x) == x[8] && Word(34, x) == x[11] && Word(35, x) == x[14]
    ensures Word(36, x) == x[1] && Word(37, x) == x[4] && Word(38, x) == x[7] && Word(39, x) == x[10]
    ensures Word(40, x) == x[13] && Word(41, x) == x[0] && Word(42, x) == x[3] && Word(43, x) == x[6]
    ensures Word(44, x) == x[9] && Word(45, x) == x[12] && Word(46, x) == x[15] && Word(47, x) == x[2]
  {
  }

  lemma AdditionsHH()
    ensures T(32) == 0xfffa3942 && T(33) == 0x8771f681 && T(34) == 0x6d9d6122 && T(35) == 0xfde5380c
    ensures T(36) == 0xa4beea44 && T(37) == 0x4bdecfa9 && T(38) == 0xf6bb4b60 && T(39) == 0xbebfbc70
    ensures T(40) == 0x289b7ec6 && T(41) == 0xeaa127fa && T(42) == 0xd4ef3085 && T(43) == 0x4881d05
    ensures T(44) == 0xd9d4d039 && T(45) == 0xe6db99e5 && T(46) == 0x1fa27cf8 && T(47) == 0xc4ac5665
  {
  }

  lemma RotationsHH()
    ensures Rotation(32) == 4 && Rotation(33) == 11 && Rotation(34) == 16 && Rotation(35) == 23
    ensures Rotation(36) == 4 && Rotation(37) == 11 && Rotation(38) == 16 && Rotation(39) == 23
    ensures Rotation(40) == 4 && Rotation(41) == 11 && Rotation(42) == 16 && Rotation(43) == 23
    ensures Rotation(44) == 4 && Rotation(45) == 11 && Rotation(46) == 16 && Rotation(47) == 23
  {
  }

  lemma WordsII(x: Block)
    ensures Word(48, x) == x[0] && Word(49, x) == x[7] && Word(50, x) == x[14] && Word(51, x) == x[5]
    ensures Word(52, x) == x[12] && Word(53, x) == x[3] && Word(54, x) == x[10] && Word(55, x) == x[1]
    ensures Word(56, x) == x[8] && Word(57, x) == x[15] && Word(58, x) == x[6] && Word(59, x) == x[13]
    ensures Word(60, x) == x[4] && Word(61, x) == x[11] && Word(62, x) == x[2] && Word(63, x) == x[9]
  {
  }

  lemma AdditionsII()
    ensures T(48) == 0xf4292244 && T(49) == 0x432aff97 && T(50) == 0xab9423a7 && T(51) == 0xfc93a039
    ensures T(52) == 0x655b59c3 && T(53) == 0x8f0ccc92 && T(54) == 0xffeff47d && T(55) == 0x85845dd1
    ensures T(56) == 0x6fa87e4f && T(57) == 0xfe2ce6e0 && T(58) == 0xa3014314 && T(59) == 0x4e0811a1
    ensures T(60) == 0xf7537e82 && T(61) == 0xbd3af235 && T(62) == 0x2ad7d2bb && T(63) == 0xeb86d391
  {
  }

  lemma RotationsII()
    ensures Rotation(48) == 6 && Rotation(49) == 10 && Rotation(50) == 15 && Rotation(51) == 21
    ensures Rotation(52) == 6 && Rotation(53) == 10 && Rotation(54) == 15 && Rotation(55) == 21
    ensures Rotation(56) == 6 && Rotation(57) == 10 && Rotation(58) == 15 && Rotation(59) == 21
    ensures Rotation(60) == 6 && Rotation(61) == 10 && Rotation(62) == 15 && Rotation(63) == 21
  {
  }

  // The four words as the state array holds them.
  function StateOf(w: seq<uint32>): State
    requires |w| == 4
  {
    State(w[0], w[1], w[2], w[3])
  }

  // The block that starts at block[at..].
  method Transform(state: array<uint32>, block: array<uint8>, at: nat)
    requires state.Length == 4 && at + 64 <= block.Length
    modifies state
    ensures StateOf(state[..]) == Next(StateOf(old(state[..])), block[at..at + 64])
  {
    hide Steps;
    ghost var s := StateOf(state[..]);
    var x := new uint32[64];
    Decode(x, block, at, 64);
    var a, b, c, d := FirstRound(state[0], state[1], state[2], state[3], x[..16]);
    a, b, c, d := SecondRound(a, b, c, d, x[..16]);
    a, b, c, d := ThirdRound(a, b, c, d, x[..16]);
    a, b, c, d := FourthRound(a, b, c, d, x[..16]);
    StepsThen(0, 16, 32, s, x[..16]);
    StepsThen(0, 32, 48, s, x[..16]);
    StepsThen(0, 48, 64, s, x[..16]);
    state[0] := Add(state[0], a);
    state[1] := Add(state[1], b);
    state[2] := Add(state[2], c);
    state[3] := Add(state[3], d);
  }
}
