// The streaming context of md5/md5.c: MD5Init, MD5Update and MD5Final over the fields of MD5_CTX.
module Md5Context {

  import opened Md5Words
  import opened Md5Bytes
  import opened Md5Rounds
  import opened Md5Transform
  import opened Md5Digest

  // The bytes of m that no complete block holds.
  function Tail(m: seq<uint8>): (t: seq<uint8>)
    ensures |t| == |m| % 64
  {
    m[Complete(|m|)..]
  }

  // The two counter words after n bytes.
  ghost predicate Counts(low: uint32, high: uint32, n: nat) {
    low == (8 * n) % WORDS && high == (8 * n / WORDS) % WORDS
  }

  // ----- The arithmetic of the counter

  lemma BufferIndex(low: uint32, high: uint32, n: nat)
    requires Counts(low, high, n)
    ensures And(ShiftRight(low, 3), 0x3F) == n % 64
  {
    hide And;
    LowIndex(low, n);
    assert Pow2(3) == 8 && Pow2(6) == 64;
    AndMask(ShiftRight(low, 3), 6);
  }

  lemma LowIndex(low: uint32, n: nat)
    requires low == (8 * n) % WORDS
    ensures (low / 8) % 64 == n % 64
  {
    var q, r := n / 0x2000_0000, n % 0x2000_0000;
    DivideMod(n, 0x2000_0000);
    DivideUnique(8 * n, WORDS, q, 8 * r);
    DivideMod(r, 64);
    DivideUnique(n, 64, q * 0x80_0000 + r / 64, r % 64);
  }

  // low + 8k wraps exactly when the sum falls below the addend.
  lemma CarryIff(low: uint32, addend: uint32)
    ensures Add(low, addend) < addend <==> low + addend >= WORDS
  {
  }

  // k << 3 and k >> 29 are the two words of 8k.
  lemma ShiftParts(k: uint32)
    ensures 8 * k == (k / 0x2000_0000) * WORDS + (8 * k) % WORDS
  {
    DivideMod(k, 0x2000_0000);
    DivideUnique(8 * k, WORDS, k / 0x2000_0000, 8 * (k % 0x2000_0000));
  }

  lemma ShiftsAre(k: uint32)
    ensures ShiftLeft(k, 3) == (8 * k) % WORDS && ShiftRight(k, 29) == k / 0x2000_0000
  {
    assert Pow2(3) == 8;
    PowSplit(13, 16);
    PowSplit(8, 8);
    PowSplit(8, 5);
  }

  lemma SumParts(x: nat, y: nat, high: nat, low: uint32, units: nat, addend: uint32)
    requires x == high * WORDS + low && y == units * WORDS + addend
    ensures
      var carry := if Add(low, addend) < addend then 1 else 0;
      (x + y) % WORDS == Add(low, addend) && (x + y) / WORDS == high + carry + units
  {
    CarryIff(low, addend);
    var carry := if low + addend >= WORDS then 1 else 0;
    DivideUnique(low + addend, WORDS, carry, low + addend - carry * WORDS);
    DivideUnique(x + y, WORDS, high + carry + units, low + addend - carry * WORDS);
  }

  // count[0] += k << 3, the carry into count[1], and count[1] += k >> 29.
  lemma CounterStep(low: uint32, high: uint32, n: nat, k: uint32)
    requires Counts(low, high, n)
    ensures
      var addend := (8 * k) % WORDS;
      var carried := if Add(low, addend) < addend then Add(high, 1) else high;
      Counts(Add(low, addend), Add(carried, k / 0x2000_0000), n + k)
  {
    hide Add;
    var addend, units, q := (8 * k) % WORDS, k / 0x2000_0000, 8 * n / WORDS;
    ShiftParts(k);
    DivideMod(8 * n, WORDS);
    SumParts(8 * n, 8 * k, q, low, units, addend);
    var carry := if Add(low, addend) < addend then 1 else 0;
    HighSum(q, carry, units);
  }

  lemma HighSum(q: nat, carry: nat, units: uint32)
    requires carry <= 1
    ensures Add(if carry == 1 then Add(q % WORDS, 1) else q % WORDS, units) == (q + carry + units) % WORDS
  {
  }

  // How many bytes one Update may take when `index` bytes wait in the buffer.
  function Limit(index: nat): (n: uint32)
    requires index < 64
  {
    WORDS - (if index == 0 then 64 else index)
  }

  // The 32-bit test i + 64 <= inputlen of the block loop means what it says exactly below that limit.
  lemma GuardIff(index: nat, inputlen: uint32)
    requires index < 64
    ensures
      (forall i: uint32 | 64 - index <= i <= inputlen && (i + index) % 64 == 0 ::
        Add(i, 64) <= inputlen <==> i + 64 <= inputlen)
      <==> inputlen < Limit(index)
  {
    if inputlen >= Limit(index) {
      var i: uint32 := if index == 0 then WORDS - 64 else WORDS - index;
      assert Add(i, 64) <= inputlen && i + 64 > inputlen;
    }
  }

  // Where the block loop stands after n iterations.
  function Position(index: nat, n: nat): uint32
    requires index < 64
  {
    (64 - index + 64 * n) % WORDS
  }

  lemma PositionNext(index: nat, n: nat)
    requires index < 64
    ensures Add(Position(index, n), 64) == Position(index, n + 1)
  {
    var at := 64 - index + 64 * n;
    DivideMod(at, WORDS);
    if at % WORDS + 64 < WORDS {
      DivideUnique(at + 64, WORDS, at / WORDS, at % WORDS + 64);
    } else {
      DivideUnique(at + 64, WORDS, at / WORDS + 1, at % WORDS + 64 - WORDS);
    }
  }

  // No position is above the limit, whose place the loop does reach.
  lemma PositionLimit(index: nat, n: nat)
    requires index < 64
    ensures Position(index, n) <= Limit(index)
    ensures exists k: nat :: Position(index, k) == Limit(index)
  {
    var at := 64 - index + 64 * n;
    DivideMod(at, WORDS);
    assert at % WORDS + index == 64 * (n + 1 - 0x400_0000 * (at / WORDS));
    var k := if index == 0 then 0x3FF_FFFE else 0x3FF_FFFF;
    assert Position(index, k) == Limit(index);
  }

  // Below the limit the block loop ends. At and above it the position wraps round to the start, so that the loop
  // never ends; on the way it takes a block that reaches beyond the input.
  lemma LoopEndsIff(index: nat, inputlen: uint32)
    requires index < 64 && 64 - index <= inputlen
    ensures (exists n: nat :: Add(Position(index, n), 64) > inputlen) <==> inputlen < Limit(index)
    ensures inputlen >= Limit(index) ==> exists n: nat :: Position(index, n) <= inputlen < Position(index, n) + 64
  {
    if inputlen < Limit(index) {
      var n := (inputlen - (64 - index)) / 64;
      DivideMod(inputlen - (64 - index), 64);
      assert Position(index, n) == 64 - index + 64 * n;
      assert Add(Position(index, n), 64) > inputlen;
    } else {
      forall n: nat ensures Add(Position(index, n), 64) <= inputlen {
        PositionNext(index, n);
        PositionLimit(index, n + 1);
      }
      PositionLimit(index, 0);
      var k: nat :| Position(index, k) == Limit(index);
    }
  }

  lemma GuardHolds(index: nat, inputlen: uint32, i: uint32)
    requires index < 64 && inputlen < Limit(index)
    requires 64 - index <= i <= inputlen && (i + index) % 64 == 0
    ensures Add(i, 64) <= inputlen <==> i + 64 <= inputlen
  {
    GuardIff(index, inputlen);
  }

  // ----- The blocks of a longer message

  lemma WholeBlock(n: nat, k: nat)
    requires n % 64 + k == 64
    ensures (n + k) % 64 == 0
  {
    DivideMod(n, 64);
    DivideUnique(n + k, 64, n / 64 + 1, 0);
  }

  lemma TailFollows(m: seq<uint8>, b: seq<uint8>)
    ensures m + b == m[..Complete(|m|)] + (Tail(m) + b)
  {
    hide Complete;
    assert m == m[..Complete(|m|)] + Tail(m);
  }

  lemma BufferFills(m: seq<uint8>, b: seq<uint8>)
    requires |m| % 64 + |b| == 64
    ensures (|m| + |b|) % 64 == 0 && Blocks(m + b) == Next(Blocks(m), Tail(m) + b)
  {
    hide Blocks, Next, Complete, Tail;
    WholeBlock(|m|, |b|);
    BlocksHead(m);
    BlocksAppend(m[..Complete(|m|)], Tail(m) + b);
    TailFollows(m, b);
  }

  lemma NextBlock(m: seq<uint8>, s: seq<uint8>, i: nat)
    requires (|m| + i) % 64 == 0 && i + 64 <= |s|
    ensures Blocks(m + s[..i + 64]) == Next(Blocks(m + s[..i]), s[i..i + 64])
  {
    hide Blocks, Next;
    BlocksAppend(m + s[..i], s[i..i + 64]);
    assert m + s[..i + 64] == (m + s[..i]) + s[i..i + 64];
  }

  lemma LastBytes(m: seq<uint8>, s: seq<uint8>, i: nat)
    requires (|m| + i) % 64 == 0 && i <= |s| < i + 64
    ensures Blocks(m + s) == Blocks(m + s[..i]) && Tail(m + s) == s[i..]
  {
    hide Blocks;
    assert Complete(|m + s|) == |m| + i;
    BlocksHead(m + s);
    assert (m + s)[..|m| + i] == m + s[..i];
  }

  lemma CompleteStays(n: nat, k: nat)
    requires n % 64 + k < 64
    ensures Complete(n + k) == Complete(n)
  {
    DivideMod(n, 64);
    DivideUnique(n + k, 64, n / 64, n % 64 + k);
  }

  // Bytes that fill no block: c is where the last complete block ends.
  lemma SameHead(m: seq<uint8>, s: seq<uint8>, c: nat)
    requires c <= |m| && c == Complete(|m|) == Complete(|m + s|)
    ensures Blocks(m + s) == Blocks(m) && Tail(m + s) == Tail(m) + s
  {
    hide Blocks, Complete;
    BlocksHead(m + s);
    BlocksHead(m);
    assert (m + s)[..c] == m[..c] && (m + s)[c..] == m[c..] + s;
  }

  lemma FewBytes(m: seq<uint8>, s: seq<uint8>)
    requires |m| % 64 + |s| < 64
    ensures Blocks(m + s) == Blocks(m) && Tail(m + s) == Tail(m) + s
  {
    hide Blocks, Complete, Tail;
    CompleteStays(|m|, |s|);
    assert |m + s| == |m| + |s|;
    SameHead(m, s, Complete(|m|));
  }

  // ----- What Final absorbs

  lemma LengthIs(w: seq<uint32>, n: nat)
    requires |w| == 2 && Counts(w[0], w[1], n)
    ensures Bytes(w) == LengthBytes(8 * n)
  {
    assert w == [w[0], w[1]];
  }

  lemma PaddingIs(p: seq<uint8>, n: nat)
    requires |p| == if n % 64 < 56 then 56 - n % 64 else 120 - n % 64
    requires p[0] == 0x80 && forall k | 0 < k < |p| :: p[k] == 0
    ensures p == Padding(n)
  {
  }

  lemma PadIs(m: seq<uint8>, p: seq<uint8>, b: seq<uint8>)
    requires p == Padding(|m|) && b == LengthBytes(8 * |m|)
    ensures Pad(m) == m + p + b
  {
  }

  lemma NoTail(m: seq<uint8>)
    requires |m| % 64 == 0
    ensures Tail(m) == []
  {
  }

  lemma OutputIs(w: seq<uint32>)
    requires |w| == 4
    ensures Bytes(w) == Output(StateOf(w))
  {
    assert w == [w[0], w[1], w[2], w[3]];
  }

  class Context {
    const count: array<uint32>
    const state: array<uint32>
    const buffer: array<uint8>

    // Every byte passed to Update since Init.
    ghost var absorbed: seq<uint8>

    ghost predicate Shape() {
      count.Length == 2 && state.Length == 4 && buffer.Length == 64 && count != state
    }

    // The streaming invariant.
    ghost predicate Valid()
      reads this, count, state, buffer
    {
      && Shape()
      && Counts(count[0], count[1], |absorbed|)
      && StateOf(state[..]) == Blocks(absorbed)
      && buffer[..|absorbed| % 64] == Tail(absorbed)
    }

    // An uninitialised MD5_CTX.
    constructor ()
      ensures Shape() && fresh(count) && fresh(state) && fresh(buffer)
    {
      count := new uint32[2];
      state := new uint32[4];
      buffer := new uint8[64];
      absorbed := [];
    }

    method Init()
      requires Shape()
      modifies this, count, state
      ensures Valid() && absorbed == []
    {
      count[0] := 0;
      count[1] := 0;
      state[0] := 0x6745_2301;
      state[1] := 0xEFCD_AB89;
      state[2] := 0x98BA_DCFE;
      state[3] := 0x1032_5476;
      absorbed := [];
      assert StateOf(state[..]) == INIT;
    }

    // The first lines of Update: both words of the bit counter.
    method Count(inputlen: uint32)
      requires Shape() && Counts(count[0], count[1], |absorbed|)
      modifies count
      ensures Counts(count[0], count[1], |absorbed| + inputlen)
    {
      CounterStep(count[0], count[1], |absorbed|, inputlen);
      ShiftsAre(inputlen);
      var addend := ShiftLeft(inputlen, 3);
      count[0] := Add(count[0], addend);
      if count[0] < addend {
        count[1] := Add(count[1], 1);
      }
      count[1] := Add(count[1], ShiftRight(inputlen, 29));
    }

    // memcpy(&buffer[index], &input[at], n).
    method Fill(index: nat, input: array<uint8>, at: nat, n: nat)
      requires Shape() && input != buffer && index + n <= 64 && at + n <= input.Length
      modifies buffer
      ensures buffer[..index + n] == old(buffer[..index]) + input[at..at + n]
    {
      forall k | 0 <= k < n {
        buffer[index + k] := input[at + k];
      }
    }

    // The buffer filled up to a block, and the block transformed.
    method FirstBlock(ghost m: seq<uint8>, index: nat, input: array<uint8>)
      requires Shape() && input != buffer && index == |m| % 64 && 64 - index <= input.Length
      requires StateOf(state[..]) == Blocks(m) && buffer[..index] == Tail(m)
      modifies state, buffer
      ensures (|m| + (64 - index)) % 64 == 0
      ensures StateOf(state[..]) == Blocks(m + input[..64 - index])
    {
      hide Next, Blocks, Tail, Complete;
      ghost var b := input[..64 - index];
      Fill(index, input, 0, 64 - index);
      assert buffer[0..64] == Tail(m) + b;
      Transform(state, buffer, 0);
      BufferFills(m, b);
    }

    // The block loop of Update: the complete blocks of input from the end of the first one on, m coming before.
    method WholeBlocks(ghost m: seq<uint8>, index: nat, input: array<uint8>, inputlen: uint32) returns (i: uint32)
      requires Shape() && index < 64 && (|m| + (64 - index)) % 64 == 0
      requires 64 - index <= inputlen < Limit(index) && inputlen <= input.Length
      requires StateOf(state[..]) == Blocks(m + input[..64 - index])
      modifies state
      ensures i <= inputlen < i + 64 && (|m| + i) % 64 == 0
      ensures StateOf(state[..]) == Blocks(m + input[..i])
    {
      hide Next, Blocks, Add, Limit;
      i := 64 - index;
      GuardHolds(index, inputlen, i);
      while Add(i, 64) <= inputlen
        invariant 64 - index <= i <= inputlen && (|m| + i) % 64 == 0 && (i + index) % 64 == 0
        invariant Add(i, 64) <= inputlen <==> i + 64 <= inputlen
        invariant StateOf(state[..]) == Blocks(m + input[..i])
        decreases inputlen - i
      {
        Transform(state, input, i);
        NextBlock(m, input[..], i);
        i := i + 64;
        GuardHolds(index, inputlen, i);
      }
    }

    method Update(input: array<uint8>, inputlen: uint32)
      requires Valid() && inputlen <= input.Length && input != buffer
      requires inputlen < Limit(|absorbed| % 64)
      modifies this, count, state, buffer
      ensures Valid() && absorbed == old(absorbed) + input[..inputlen]
    {
      hide Counts, Next, Blocks, Limit, Tail, Complete, And, ShiftRight;
      ghost var m, s := absorbed, input[..inputlen];
      BufferIndex(count[0], count[1], |m|);
      var index := And(ShiftRight(count[0], 3), 0x3F);
      var partlen := 64 - index;
      Count(inputlen);
      var i := 0;
      if inputlen >= partlen {
        FirstBlock(m, index, input);
        i := WholeBlocks(m, index, input, inputlen);
        index := 0;
        LastBytes(m, s, i);
        assert s[..i] == input[..i];
      } else {
        FewBytes(m, s);
      }
      Fill(index, input, i, inputlen - i);
      absorbed := m + s;
    }

    // The digest of everything absorbed since Init; the padding is absorbed too.
    method Final(digest: array<uint8>)
      requires Valid() && digest.Length == 16 && digest != buffer
      modifies this, count, state, buffer, digest
      ensures digest[..] == Md5(old(absorbed))
      ensures Valid() && absorbed == Pad(old(absorbed))
    {
      hide Counts, Blocks, Pad, Padding, LengthBytes, Bytes, And, ShiftRight;
      ghost var m := absorbed;
      BufferIndex(count[0], count[1], |m|);
      var index := And(ShiftRight(count[0], 3), 0x3F);
      var padlen := if index < 56 then 56 - index else 120 - index;
      var bits := new uint8[8];
      Encode(bits, count, 8);
      LengthIs(count[..2], |m|);
      var padding := new uint8[64](k => if k == 0 then 0x80 else 0);
      PaddingIs(padding[..padlen], |m|);
      Update(padding, padlen);
      Update(bits, 8);
      PadIs(m, padding[..padlen], bits[..8]);
      NoTail(Pad(m));
      Encode(digest, state, 16);
      OutputIs(state[..4]);
      assert digest[..16] == digest[..];
    }
  }
}
