// The sender of filesend/tcpfilesend/client.c, and what it and the server agree on.
module TcpClient {

  import opened Md5Words
  import opened Md5Bytes
  import opened TransferFiles
  import opened TcpWire
  import opened TcpServer

  datatype Result = Confirmed | Denied | Refused | Unopened

  function Announcement(src: Source, hash: Hash): (b: seq<uint8>)
    requires Fits(src.name)
    ensures |b| == 92
  {
    HeaderBytes(Header(SEND_FILEMSG_REQ, REQ_NOR), 84)
    + BlockBytes(FileBlock(src.name, AnnouncedDigest(src, hash), |src.contents| % WORDS))
  }

  // A message byte by byte: command and type, the number of bytes that follow the header, the name and its end,
  // the digest and the length.
  ghost predicate Layout(a: seq<uint8>, name: string, md5: Digest, length: nat)
    requires Fits(name)
  {
    && |a| == 92 && a[..4] == [1, 0, 0, 0] && WordOfBytes(a[4..8]) == |a| - 8
    && (forall i | 0 <= i < |name| :: a[8 + i] == CharByte(name[i])) && a[8 + |name|] == 0
    && a[72..88] == md5 && WordOfBytes(a[88..92]) == length
  }

  lemma AnnouncementLayout(src: Source, hash: Hash)
    requires Fits(src.name)
    ensures Layout(Announcement(src, hash), src.name, AnnouncedDigest(src, hash), |src.contents| % 0x1_0000_0000)
  {
    hide BytesOfWord, WordOfBytes, Announcement, BlockBytes, CharByte;
    var a, length := Announcement(src, hash), |src.contents| % 0x1_0000_0000;
    var block := FileBlock(src.name, AnnouncedDigest(src, hash), length);
    AnnouncementParts(src, hash, block);
    WordRoundTrip(84);
    WordRoundTrip(length);
    assert forall i | 0 <= i < 64 :: a[8 + i] == a[8..72][i];
  }

  lemma AnnouncementParts(src: Source, hash: Hash, block: FileBlock)
    requires Fits(src.name)
    requires block == FileBlock(src.name, AnnouncedDigest(src, hash), |src.contents| % 0x1_0000_0000)
    ensures
      var a := Announcement(src, hash);
      && a[..4] == [1, 0, 0, 0] && a[4..8] == BytesOfWord(84) && a[8..72] == NameBytes(src.name)
      && a[72..88] == block.md5 && a[88..92] == BytesOfWord(block.length)
  {
    hide BytesOfWord, NameBytes;
    var a := Announcement(src, hash);
    assert a[0] == 1 && a[1] == 0 && a[2] == 0 && a[3] == 0;
    assert a[8..] == BlockBytes(block);
    assert a[8..72] == BlockBytes(block)[..64];
  }

  // The header that the cleared buffer holds after a recv.
  function HeaderIn(r: Recv): Header {
    if r.Segment? then TcpWire.HeaderOf(r.bytes + Zeros(4)) else Header(0, 0)
  }

  lemma NoHeader(r: Recv)
    ensures !r.Segment? ==> HeaderIn(r) == Header(0, 0)
  {
  }

  method Put(buf: array<uint8>, at: nat, bytes: seq<uint8>)
    requires at + |bytes| <= buf.Length
    modifies buf
    ensures buf[..at] == old(buf[..at]) && buf[at..at + |bytes|] == bytes
    ensures buf[at + |bytes|..] == old(buf[at + |bytes|..])
  {
    forall i | 0 <= i < |bytes| {
      buf[at + i] := bytes[i];
    }
  }

  // bzero, recv, and the look at the header.
  method ReceiveHeader(buf: array<uint8>, r: Recv) returns (h: Header)
    requires buf.Length == MAXLINE && (r.Segment? ==> |r.bytes| <= MAXLINE)
    modifies buf
    ensures h == HeaderIn(r)
  {
    forall i | 0 <= i < MAXLINE {
      buf[i] := 0;
    }
    if r.Segment? {
      Put(buf, 0, r.bytes);
      assert forall i | 0 <= i < 4 :: buf[i] == (r.bytes + Zeros(4))[i];
    }
    h := TcpWire.HeaderOf(buf[..4]);
  }

  // read and send until end of file.
  method SendContents(buf: array<uint8>, contents: File) returns (sent: seq<seq<uint8>>)
    requires buf.Length == MAXLINE
    modifies buf
    ensures Concat(sent) == contents && forall i | 0 <= i < |sent| :: 0 < |sent[i]| <= 2048
    ensures forall i | 0 <= i < |sent| - 1 :: |sent[i]| == 2048
  {
    sent := [];
    var at := 0;
    while true
      invariant at <= |contents| && Concat(sent) == contents[..at]
      invariant forall i | 0 <= i < |sent| :: 0 < |sent[i]| <= BUF_MAX_LEN
      invariant forall i | 0 <= i < |sent| && (i < |sent| - 1 || at < |contents|) :: |sent[i]| == BUF_MAX_LEN
      decreases |contents| - at
    {
      forall i | 0 <= i < MAXLINE {
        buf[i] := 0;
      }
      var len := if |contents| - at < BUF_MAX_LEN then |contents| - at else BUF_MAX_LEN;
      if len <= 0 {
        break;
      }
      Put(buf, 0, contents[at..at + len]);
      assert buf[..len] == buf[0..len];
      ConcatSnoc(sent + [buf[..len]], |sent|);
      assert (sent + [buf[..len]])[..|sent|] == sent && (sent + [buf[..len]])[..|sent| + 1] == sent + [buf[..len]];
      sent := sent + [buf[..len]];
      at := at + len;
    }
  }

  // What is sent in order, and what the user is told.
  method RequestSendfile(src: Source, hash: Hash, buf: array<uint8>, ack: Recv, verdict: Recv)
    returns (announcement: seq<uint8>, sent: seq<seq<uint8>>, result: Result)
    requires Fits(src.name) && ValidResults([ack, verdict])
    requires buf.Length == MAXLINE && forall i | 0 <= i < MAXLINE :: buf[i] == 0
    modifies buf
    ensures announcement == Announcement(src, hash)
    ensures
      if HeaderIn(ack) != Header(SEND_FILEMSG_REQ, ACK_OK) then sent == [] && result == Refused
      else if !src.opens then sent == [] && result == Unopened
      else Concat(sent) == src.contents
           && result == if HeaderIn(verdict) == Header(SEND_FINISH, ACK_OK) then Confirmed else Denied
    ensures (!ack.Segment? ==> result == Refused) && (!verdict.Segment? ==> result != Confirmed)
  {
    hide HeaderBytes, BlockBytes, HeaderIn, Concat;
    var block := FileBlock(src.name, NO_DIGEST, |src.contents| % WORDS);
    if src.opens {
      block := block.(md5 := hash(src.contents));
    }
    assert ValidResults([ack, verdict]) && [ack, verdict][0] == ack && [ack, verdict][1] == verdict;
    Put(buf, 8, BlockBytes(block));
    assert buf[8..][..84] == buf[8..92];
    Put(buf, 0, HeaderBytes(Header(SEND_FILEMSG_REQ, REQ_NOR), 84));
    assert buf[8..][..84] == buf[8..92];
    announcement, sent := buf[..92], [];
    assert announcement == buf[0..8] + buf[8..92];
    assert announcement == Announcement(src, hash);
    NoHeader(ack);
    NoHeader(verdict);
    var h := ReceiveHeader(buf, ack);
    if h != Header(SEND_FILEMSG_REQ, ACK_OK) {
      return announcement, sent, Refused;
    }
    if !src.opens {
      return announcement, sent, Unopened;
    }
    sent := SendContents(buf, src.contents);
    h := ReceiveHeader(buf, verdict);
    result := if h == Header(SEND_FINISH, ACK_OK) then Confirmed else Denied;
  }

  // ----- Both ends

  lemma AnnouncementRead(src: Source, hash: Hash, rest: seq<uint8>)
    requires Fits(src.name)
    ensures
      ParseBlock((Announcement(src, hash) + rest)[8..])
        == FileBlock(src.name, AnnouncedDigest(src, hash), |src.contents| % WORDS)
  {
    hide BlockBytes, ParseBlock;
    var block := FileBlock(src.name, AnnouncedDigest(src, hash), |src.contents| % WORDS);
    BlockRoundTrip(block, rest);
    assert (Announcement(src, hash) + rest)[8..] == BlockBytes(block) + rest;
  }

  lemma ReplyRead(cmd: nat, kind: nat)
    requires cmd < 0x1_0000 && kind < 0x1_0000
    ensures HeaderIn(Segment(HeaderBytes(Header(cmd, kind), 0))) == Header(cmd, kind)
  {
    HeaderRoundTrip(Header(cmd, kind), 0, Zeros(4));
  }

  lemma PartHolds(d: Disk, back: string, bytes: File)
    requires ValidDisk(d) && back != ""
    ensures
      var part := WithPart(d, back, true, bytes);
      && back in part.names && part.names == d.names[back := PartInode(d, back)]
      && |d.files| <= |part.files|
      && (forall i | 0 <= i < |d.files| && i != PartInode(d, back) :: part.files[i] == d.files[i])
      && part.files[part.names[back]] == Overlay(Leftover(d, back), 0, bytes)
  {
    hide Overlay;
  }

  lemma PartJudged(hash: Hash, source: File, d: Disk, path: string, back: string)
    requires NoCollision(hash, source) && ValidDisk(d) && path != "" && back != "" && path != back
    ensures
      var (judged, ok) := Judged(hash, WithPart(d, back, true, source), path, back, hash(source));
      && (ok <==> |Leftover(d, back)| <= |source|)
      && (ok ==> Moved(d, judged, back, path) && ValidDisk(judged) && judged.files[judged.names[path]] == source)
      && (!ok ==> judged == WithPart(d, back, true, source))
  {
    hide Overlay, WithPart;
    PartHolds(d, back, source);
    OverlayWhole(Leftover(d, back), source);
  }

  // Whether a source that arrives whole is accepted: a longer leftover shows in a part file that opens, and one
  // that does not open is judged as it is.
  predicate Accepts(hash: Hash, source: File, d: Disk, back: string, opens: bool)
    requires ValidDisk(d)
  {
    if opens then |Leftover(d, back)| <= |source| else DigestOf(hash, d, back) == hash(source)
  }

  lemma UnopenedJudged(hash: Hash, source: File, d: Disk, path: string, back: string)
    requires NoCollision(hash, source) && ValidDisk(d) && path != "" && back != "" && path != back
    ensures
      var (judged, ok) := Judged(hash, d, path, back, hash(source));
      && (ok <==> DigestOf(hash, d, back) == hash(source)) && ValidDisk(judged)
      && (ok && back in d.names ==> Moved(d, judged, back, path) && judged.files[judged.names[path]] == source)
      && (!ok || back !in d.names ==> judged == d)
  {
  }

  // A part file that does not open is judged as it is, after the first segment.
  lemma NothingWritten(hash: Hash, source: File, name: string, d: Disk, results: seq<Recv>)
    requires NoCollision(hash, source) && ValidDisk(d) && |source| < WORDS
    ensures
      var path, back := PICTUREPATH + name, PICTUREPATH + name + FILEPART;
      var service := Serve(hash, d, path, back, FileBlock(name, hash(source), |source|), false, results);
      service.Served? ==>
        && (service.ok <==> DigestOf(hash, d, back) == hash(source)) && ValidDisk(service.disk)
        && (service.ok && back in d.names ==>
              Moved(d, service.disk, back, path) && service.disk.files[service.disk.names[path]] == source)
        && (!service.ok || back !in d.names ==> service.disk == d)
  {
    hide NoCollision, Judged;
    var path, back := PICTUREPATH + name, PICTUREPATH + name + FILEPART;
    assert |path| < |back|;
    UnopenedJudged(hash, source, d, path, back);
  }

  lemma OpenedTransferred(hash: Hash, source: File, name: string, d: Disk, results: seq<Recv>)
    requires NoCollision(hash, source) && 0 < |source| && |source| + MAXLINE <= WORDS
    requires ValidDisk(d) && ValidResults(results)
    requires (forall i | 0 <= i < |results| :: results[i].Segment?) && Stream(results) == source
    ensures
      var path, back := PICTUREPATH + name, PICTUREPATH + name + FILEPART;
      var service := Serve(hash, d, path, back, FileBlock(name, hash(source), |source|), true, results);
      && service.Served?
      && (service.ok <==> |Leftover(d, back)| <= |source|)
      && (service.ok ==>
            Moved(d, service.disk, back, path) && ValidDisk(service.disk)
            && service.disk.files[service.disk.names[path]] == source)
      && (!service.ok ==> service.disk == WithPart(d, back, true, source))
  {
    hide Judged, WithPart, Taken, NoCollision, Leftover;
    var path, back := PICTUREPATH + name, PICTUREPATH + name + FILEPART;
    FullDelivery(|source|, results);
    assert results[..|results|] == results;
    assert |path| < |back|;
    PartJudged(hash, source, d, path, back);
  }

  lemma UnopenedServed(hash: Hash, source: File, name: string, d: Disk, results: seq<Recv>)
    requires 0 < |source| && |source| + MAXLINE <= WORDS && ValidDisk(d) && ValidResults(results)
    requires (forall i | 0 <= i < |results| :: results[i].Segment?) && Stream(results) == source
    ensures
      var path, back := PICTUREPATH + name, PICTUREPATH + name + FILEPART;
      Serve(hash, d, path, back, FileBlock(name, hash(source), |source|), false, results).Served?
  {
    hide Judged, WithPart, Taken, Stream;
    LoopEndsIff(false, source, results);
  }

  lemma UnopenedPart(d: Disk, back: string, bytes: File)
    requires ValidDisk(d) && back != ""
    ensures WithPart(d, back, false, bytes) == d
  {
  }

  // The source cut into segments in any way, for a server whose path buffers were empty: the loop ends, the verdict is
  // positive exactly when the source is accepted, and then the part file has become the source under its name, or else
  // there was no part file at all and nothing is published. Nothing else on the disk changes.
  lemma Transferred(hash: Hash, source: File, name: string, d: Disk, opens: bool, results: seq<Recv>)
    requires NoCollision(hash, source) && 0 < |source| && |source| + MAXLINE <= WORDS
    requires ValidDisk(d) && ValidResults(results)
    requires (forall i | 0 <= i < |results| :: results[i].Segment?) && Stream(results) == source
    ensures
      var path, back := PICTUREPATH + name, PICTUREPATH + name + FILEPART;
      var service := Serve(hash, d, path, back, FileBlock(name, hash(source), |source|), opens, results);
      && service.Served?
      && (service.ok <==> Accepts(hash, source, d, back, opens))
      && (service.ok && (opens || back in d.names) ==>
            Moved(d, service.disk, back, path) && ValidDisk(service.disk)
            && service.disk.files[service.disk.names[path]] == source)
      && (service.ok && !opens && back !in d.names ==> service.disk == d)
      && (!service.ok ==> service.disk == WithPart(d, back, opens, source))
  {
    hide Serve, WithPart, NoCollision, Leftover, DigestOf, Moved;
    if opens {
      OpenedTransferred(hash, source, name, d, results);
    } else {
      UnopenedServed(hash, source, name, d, results);
      NothingWritten(hash, source, name, d, results);
      UnopenedPart(d, PICTUREPATH + name + FILEPART, source);
    }
  }

  lemma VerdictBytes(ok: bool)
    ensures Verdict(ok) == [3, 0, if ok then 1 else 2, 0, 0, 0, 0, 0]
  {
  }

  // The sender confirms exactly a positive verdict.
  lemma VerdictRead(ok: bool)
    ensures HeaderIn(Segment(Verdict(ok))) == Header(SEND_FINISH, ACK_OK) <==> ok
  {
    hide HeaderIn, HeaderBytes;
    ReplyRead(SEND_FINISH, if ok then ACK_OK else ACK_FAIL);
  }
}
