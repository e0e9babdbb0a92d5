// The announcement of filesend/tcpfilesend as bytes: Message_t and FileBlock_t of net_file.h in memory order.
module TcpWire {

  import opened Md5Words
  import opened Md5Bytes
  import opened TransferFiles

  const BUF_MAX_LEN: nat := 2048
  const MESG_HEAD_LEN: nat := 8
  const MAXLINE: nat := 2056
  const FILE_NAME_MAX_LEN: nat := 64

  // cmd, type and buf_len, low-order byte first.
  function HeaderBytes(h: Header, length: uint32): (b: seq<uint8>)
    requires h.cmd < 0x1_0000 && h.kind < 0x1_0000
    ensures |b| == MESG_HEAD_LEN
  {
    [ByteAt(h.cmd, 1), ByteAt(h.cmd, 0x100), ByteAt(h.kind, 1), ByteAt(h.kind, 0x100)] + BytesOfWord(length)
  }

  function HeaderOf(b: seq<uint8>): Header
    requires |b| >= 4
  {
    Header(Gather(b[0], b[1], 0, 0), Gather(b[2], b[3], 0, 0))
  }

  // A name that strcpy and the 64-byte field keep whole.
  predicate Fits(name: string) {
    |name| < FILE_NAME_MAX_LEN && forall c <- name :: 0 < c as int < 0x100
  }

  function CharByte(c: char): uint8 {
    var code: int := c as int;
    if code < 0x100 then code else 0
  }

  function NameBytes(name: string): (b: seq<uint8>)
    requires Fits(name)
    ensures |b| == FILE_NAME_MAX_LEN
  {
    seq(|name|, i requires 0 <= i < |name| => CharByte(name[i])) + Zeros(FILE_NAME_MAX_LEN - |name|)
  }

  // The characters before the first zero byte.
  function CString(b: seq<uint8>): string {
    if b == [] || b[0] == 0 then "" else [b[0] as char] + CString(b[1..])
  }

  function BlockBytes(block: FileBlock): (b: seq<uint8>)
    requires Fits(block.name) && block.length < WORDS
    ensures |b| == 84
  {
    NameBytes(block.name) + block.md5 + BytesOfWord(block.length)
  }

  function ParseBlock(b: seq<uint8>): FileBlock
    requires |b| >= 84
  {
    FileBlock(CString(b[..64]), b[64..80], WordOfBytes(b[80..84]))
  }

  lemma {:induction false} CStringOf(name: string, b: seq<uint8>)
    requires |name| < |b| && b[|name|] == 0
    requires forall i | 0 <= i < |name| :: 0 < name[i] as int < 0x100 && b[i] == name[i] as int
    ensures CString(b) == name
    decreases |name|
  {
    if name != "" {
      CStringOf(name[1..], b[1..]);
      assert b[0] as char == name[0];
      assert name == [name[0]] + name[1..];
    }
  }

  lemma NameRoundTrip(name: string)
    requires Fits(name)
    ensures CString(NameBytes(name)) == name
  {
    assert forall i | 0 <= i < |name| :: name[i] in name;
    CStringOf(name, NameBytes(name));
  }

  // What the server reads is what the client wrote, whatever follows it in the buffer.
  lemma BlockRoundTrip(block: FileBlock, rest: seq<uint8>)
    requires Fits(block.name) && block.length < WORDS
    ensures ParseBlock(BlockBytes(block) + rest) == block
  {
    var b := BlockBytes(block) + rest;
    assert b[..64] == NameBytes(block.name);
    assert b[64..80] == block.md5;
    assert b[80..84] == BytesOfWord(block.length);
    NameRoundTrip(block.name);
    WordRoundTrip(block.length);
  }

  // ----- The announcement cut short: what has not arrived is zero in the cleared buffer

  function Cut(b: seq<uint8>, k: nat): (c: seq<uint8>)
    requires k <= |b|
    ensures |c| == |b|
  {
    b[..k] + Zeros(|b| - k)
  }

  // Nothing but zeros comes from place n on.
  ghost predicate OnlyZeros(b: seq<uint8>, n: nat) {
    forall i | n <= i < |b| :: b[i] == 0
  }

  lemma ParseFirst(b: seq<uint8>)
    requires |b| >= 84
    ensures ParseBlock(b) == ParseBlock(b[..84])
  {
    assert b[..84][..64] == b[..64] && b[..84][64..80] == b[64..80] && b[..84][80..84] == b[80..84];
  }

  // The name that arrives is the part of it before the cut.
  lemma CutName(block: FileBlock, k: nat)
    requires Fits(block.name) && block.length < WORDS && k <= 84
    ensures ParseBlock(Cut(BlockBytes(block), k)).name == if k < |block.name| then block.name[..k] else block.name
  {
    var b, c := BlockBytes(block), Cut(BlockBytes(block), k);
    var name := if k < |block.name| then block.name[..k] else block.name;
    assert forall i | 0 <= i < |block.name| :: block.name[i] in block.name;
    assert forall i | 0 <= i < |name| :: c[i] == b[i] == NameBytes(block.name)[i];
    assert c[|name|] == 0;
    CStringOf(name, c[..64]);
  }

  lemma SameWord(b: seq<uint8>, c: seq<uint8>)
    requires |b| == |c| == 4
    ensures WordOfBytes(b) == WordOfBytes(c) <==> b == c
  {
    hide WordOfBytes, BytesOfWord;
    FourBytesRoundTrip(b);
    FourBytesRoundTrip(c);
  }

  // The block that is read is the announced one exactly when all that is missing is zero.
  lemma CutBlockIff(block: FileBlock, k: nat)
    requires Fits(block.name) && block.length < WORDS && k <= 84
    ensures ParseBlock(Cut(BlockBytes(block), k)) == block <==> OnlyZeros(BlockBytes(block), k)
  {
    hide WordOfBytes;
    var b, c := BlockBytes(block), Cut(BlockBytes(block), k);
    BlockRoundTrip(block, []);
    assert b + [] == b;
    CutName(block, k);
    SameWord(b[80..84], c[80..84]);
    if OnlyZeros(b, k) {
      assert c == b;
    }
    if ParseBlock(c) == block {
      forall i | k <= i < 84
        ensures b[i] == 0
      {
        if i < 64 {
          assert b[i] == NameBytes(block.name)[i];
        } else if i < 80 {
          assert b[64..80][i - 64] == c[64..80][i - 64];
        } else {
          assert b[80..84][i - 80] == c[80..84][i - 80];
        }
      }
    }
  }

  // The length that is read is never above the announced one.
  lemma CutLength(block: FileBlock, k: nat)
    requires Fits(block.name) && block.length < WORDS && k <= 84
    ensures ParseBlock(Cut(BlockBytes(block), k)).length <= block.length
  {
    var b, c := BlockBytes(block), Cut(BlockBytes(block), k);
    BlockRoundTrip(block, []);
    assert b + [] == b;
    LowerWord(b[80..84], c[80..84]);
  }

  lemma LowerWord(b: seq<uint8>, c: seq<uint8>)
    requires |b| == |c| == 4 && forall i | 0 <= i < 4 :: c[i] <= b[i]
    ensures WordOfBytes(c) <= WordOfBytes(b)
  {
  }

  // After 64 bytes the name is there, and neither the digest nor the length.
  lemma CutAfterName(block: FileBlock)
    requires Fits(block.name) && block.length < WORDS
    ensures ParseBlock(Cut(BlockBytes(block), 64)) == FileBlock(block.name, NO_DIGEST, 0)
  {
    var c := Cut(BlockBytes(block), 64);
    CutName(block, 64);
    assert c[64..80] == NO_DIGEST;
    assert c[80..84] == [0, 0, 0, 0];
  }

  lemma HeaderRoundTrip(h: Header, length: uint32, rest: seq<uint8>)
    requires h.cmd < 0x1_0000 && h.kind < 0x1_0000
    ensures HeaderOf(HeaderBytes(h, length) + rest) == h
  {
    TwoBytes(h.cmd);
    TwoBytes(h.kind);
  }

  lemma TwoBytes(w: uint32)
    requires w < 0x1_0000
    ensures Gather(ByteAt(w, 1), ByteAt(w, 0x100), 0, 0) == w
  {
  }

  // The bytes of the parts, one after the other.
  function Concat(parts: seq<seq<uint8>>): seq<uint8> {
    if parts == [] then [] else Concat(parts[..|parts| - 1]) + parts[|parts| - 1]
  }

  lemma ConcatSnoc(parts: seq<seq<uint8>>, n: nat)
    requires n < |parts|
    ensures Concat(parts[..n + 1]) == Concat(parts[..n]) + parts[n]
  {
    assert parts[..n + 1][..n] == parts[..n];
  }
}
