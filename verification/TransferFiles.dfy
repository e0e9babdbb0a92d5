// What the two file transfer programs share: file contents, digests and the announcement of a file.
module TransferFiles {

  import Md5Words

  type uint8 = Md5Words.uint8

  // ----- The messages of the two programs

  const SEND_FILEMSG_REQ: nat := 0x01
  const SEND_FILE: nat := 0x02
  const SEND_FINISH: nat := 0x03

  const REQ_NOR: nat := 0x00
  const ACK_OK: nat := 0x01
  const ACK_FAIL: nat := 0x02
  const ACK_NOSP: nat := 0x03
  const REQ_NORE: nat := 0x04

  // The cmd and type fields; a reply says nothing more.
  datatype Header = Header(cmd: nat, kind: nat)

  // ----- Files and digests

  type File = seq<uint8>

  type Digest = d: seq<uint8> | |d| == 16 witness seq(16, _ => 0)

  // The digest buffer as the programs clear it; a file that cannot be opened leaves it so.
  const NO_DIGEST: Digest := [0, 0, 0, 0, 0, 0, 0, 0, 0, 0, 0, 0, 0, 0, 0, 0]

  // The digest function of the two ends.
  type Hash = File -> Digest

  // FileBlock_t without the time stamp.
  datatype FileBlock = FileBlock(name: string, md5: Digest, length: nat)

  const NO_BLOCK: FileBlock := FileBlock("", NO_DIGEST, 0)

  // The file to send; one that does not open has no digest.
  datatype Source = Source(name: string, opens: bool, contents: File)

  // The digest that the sender announces.
  function AnnouncedDigest(src: Source, hash: Hash): Digest {
    if src.opens then hash(src.contents) else NO_DIGEST
  }

  // The contents after d has been written at position at; a gap reads as zero bytes.
  function Overlay(c: File, at: nat, d: File): (r: File)
    ensures |r| == if d == [] || at + |d| <= |c| then |c| else at + |d|
    ensures forall i | at <= i < at + |d| :: r[i] == d[i - at]
    ensures forall i | 0 <= i < |c| && !(at <= i < at + |d|) :: r[i] == c[i]
  {
    if d == [] then c
    else if at + |d| <= |c| then c[..at] + d + c[at + |d|..]
    else if at <= |c| then c[..at] + d
    else c + seq(at - |c|, _ => 0) + d
  }

  lemma OverlayEmpty(d: File)
    ensures Overlay([], 0, d) == d
  {
  }

  lemma OverlayEnd(c: File, d: File)
    ensures Overlay(c, |c|, d) == c + d
  {
  }

  // Writing on from where the last write stopped.
  lemma OverlayTwice(c: File, at: nat, d: File, e: File)
    requires at <= |c|
    ensures Overlay(Overlay(c, at, d), at + |d|, e) == Overlay(c, at, d + e)
  {
    hide Overlay;
    var twice, once := Overlay(Overlay(c, at, d), at + |d|, e), Overlay(c, at, d + e);
    forall i | 0 <= i < |once|
      ensures twice[i] == once[i]
    {
    }
  }

  // What was there before shows exactly when it is longer.
  lemma OverlayWhole(c: File, d: File)
    ensures Overlay(c, 0, d) == d <==> |c| <= |d|
  {
  }

  ghost predicate NoCollision(hash: Hash, source: File) {
    forall f :: hash(f) == hash(source) ==> f == source
  }

  // ----- The file system: names of files, and the files themselves, which an open descriptor keeps whatever their name

  datatype Disk = Disk(names: map<string, nat>, files: seq<File>)

  ghost predicate ValidDisk(d: Disk) {
    forall n | n in d.names :: n != "" && d.names[n] < |d.files|
  }

  // open(name, O_WRONLY | O_CREAT): no truncation.
  function Opened(d: Disk, name: string): (r: (Disk, nat)) {
    if name in d.names then (d, d.names[name])
    else (Disk(d.names[name := |d.files|], d.files + [[]]), |d.files|)
  }

  // MD5_file: a name without a file leaves the cleared buffer.
  function DigestOf(hash: Hash, d: Disk, name: string): Digest
    requires ValidDisk(d)
  {
    if name in d.names then hash(d.files[d.names[name]]) else NO_DIGEST
  }

  // What an earlier transfer left in a part file.
  function Leftover(d: Disk, part: string): File
    requires ValidDisk(d)
  {
    if part in d.names then d.files[d.names[part]] else []
  }

  // mv.
  function Renamed(d: Disk, from: string, to: string): Disk {
    if from in d.names then d.(names := d.names[to := d.names[from]] - {from}) else d
  }

  // From d to e the part file got its final name, with whatever contents; everything else is as it was.
  ghost predicate Moved(d: Disk, e: Disk, part: string, path: string) {
    && part !in e.names && path in e.names && e.names[path] == PartInode(d, part)
    && (forall n | n != part && n != path :: SameName(d, e, n))
    && |d.files| <= |e.files|
    && (forall i | 0 <= i < |d.files| && i != PartInode(d, part) :: e.files[i] == d.files[i])
  }

  // The file that an opening of the part file gives, a new one if need be.
  function PartInode(d: Disk, part: string): nat {
    if part in d.names then d.names[part] else |d.files|
  }

  ghost predicate SameName(d: Disk, e: Disk, n: string) {
    (n in d.names <==> n in e.names) && (n in d.names ==> e.names[n] == d.names[n])
  }

  // The comparison loop over the 16 bytes.
  method SameDigest(a: Digest, b: Digest) returns (same: bool)
    ensures same <==> a == b
  {
    var i := 0;
    while i < 16 && a[i] == b[i]
      invariant 0 <= i <= 16 && a[..i] == b[..i]
    {
      i := i + 1;
    }
    same := i == 16;
    assert a == a[..16] && b == b[..16];
  }
}
