// The receiver of filesend/tcpfilesend/server.c: one global buffer holds the message, every segment and every reply.
module TcpServer {

  import opened Md5Words
  import opened TransferFiles
  import opened TcpWire

  // A return of recv: some bytes, 0 when the peer closed the connection, or -1.
  datatype Recv = Segment(bytes: seq<uint8>) | Closed | Failed

  const PICTUREPATH: string := "./picture/"
  const FILEPART: string := ".filepart"

  // recv returns from one byte to MAXLINE.
  ghost predicate ValidResults(results: seq<Recv>) {
    forall i | 0 <= i < |results| && results[i].Segment? :: 0 < |results[i].bytes| <= MAXLINE
  }

  // ----- How far the receive loop goes

  // len += write(fd, buf, recv_len), where a part file that did not open makes write return -1.
  function Counted(opens: bool, len: int, bytes: seq<uint8>): int {
    len + if opens then |bytes| else -1
  }

  // The int len against the unsigned length.
  predicate Enough(len: int, length: uint32) {
    len % WORDS >= length
  }

  // The number of segments taken when len bytes have been counted, and whether the loop then ends.
  function Taken(opens: bool, length: uint32, len: int, results: seq<Recv>): (r: (nat, bool))
    ensures r.0 <= |results|
    decreases |results|
  {
    if results == [] then (0, false)
    else if !results[0].Segment? then (0, true)
    else
      var len' := Counted(opens, len, results[0].bytes);
      if Enough(len', length) then (1, true)
      else
        var (n, ends) := Taken(opens, length, len', results[1..]);
        (n + 1, ends)
  }

  lemma TakenNext(opens: bool, length: uint32, len: int, results: seq<Recv>, n: nat)
    requires n < |results|
    ensures
      Taken(opens, length, len, results[n..]) ==
        if !results[n].Segment? then (0, true)
        else
          var len' := Counted(opens, len, results[n].bytes);
          if Enough(len', length) then (1, true)
          else
            var (k, ends) := Taken(opens, length, len', results[n + 1..]);
            (k + 1, ends)
  {
    assert results[n..][1..] == results[n + 1..];
  }

  lemma TakenNone(opens: bool, length: uint32, len: int)
    ensures Taken(opens, length, len, []) == (0, false)
  {
  }

  // The bytes of the segments, one after the other.
  function Stream(results: seq<Recv>): (s: seq<uint8>)
    decreases |results|
  {
    if results == [] then []
    else
      var last := results[|results| - 1];
      Stream(results[..|results| - 1]) + (if last.Segment? then last.bytes else [])
  }

  lemma StreamSnoc(results: seq<Recv>, n: nat)
    requires n < |results| && results[n].Segment?
    ensures Stream(results[..n + 1]) == Stream(results[..n]) + results[n].bytes
  {
    assert results[..n + 1][..n] == results[..n];
  }

  lemma {:induction false} StreamCons(results: seq<Recv>)
    requires results != [] && results[0].Segment?
    ensures Stream(results) == results[0].bytes + Stream(results[1..])
    decreases |results|
  {
    if |results| == 1 {
      assert results[1..] == [] && results[..0] == [];
    } else {
      var n := |results| - 1;
      StreamCons(results[..n]);
      assert results[..n][1..] == results[1..][..n - 1];
    }
  }

  // The count at exit, when the part file is open: below the announced length at every segment but the last,
  // so that it exceeds the length by less than one buffer.
  lemma {:induction false} TakenBounds(length: uint32, len: nat, results: seq<Recv>)
    requires ValidResults(results) && len < length && length + MAXLINE <= WORDS
    ensures
      var (n, ends) := Taken(true, length, len, results);
      var total := len + |Stream(results[..n])|;
      && total < length + 2056
      && (forall k | 0 <= k < n :: results[k].Segment? && len + |Stream(results[..k])| < length)
      && (ends <==> total >= length || (n < |results| && !results[n].Segment?))
      && (total < length ==> n == |results| || !results[n].Segment?)
    decreases |results|
  {
    hide Stream, Enough;
    StreamNone(results);
    if results != [] && results[0].Segment? {
      var rest, len' := results[1..], len + |results[0].bytes|;
      EnoughIff(len', length);
      StreamFirst(results, 1);
      StreamNone(rest);
      if len' < length {
        assert ValidResults(rest);
        TakenBounds(length, len', rest);
        var n := Taken(true, length, len', rest).0;
        StreamFirst(results, n + 1);
        forall k | 0 < k < n + 1
          ensures results[k].Segment? && len + |Stream(results[..k])| < length
        {
          StreamFirst(results, k);
          assert results[k] == rest[k - 1];
        }
      }
    }
  }

  lemma EnoughIff(len: nat, length: uint32)
    requires len < WORDS
    ensures Enough(len, length) <==> len >= length
  {
  }

  lemma StreamNone(results: seq<Recv>)
    ensures Stream(results[..0]) == []
  {
  }

  lemma StreamFirst(results: seq<Recv>, k: nat)
    requires 0 < k <= |results| && results[0].Segment?
    ensures Stream(results[..k]) == results[0].bytes + Stream(results[1..][..k - 1])
  {
    StreamCons(results[..k]);
    assert results[..k][1..] == results[1..][..k - 1];
  }

  // However the announced bytes are cut into segments, the loop takes them all and ends with the last one.
  lemma FullDelivery(length: uint32, results: seq<Recv>)
    requires ValidResults(results) && 0 < length && length + MAXLINE <= WORDS
    requires forall i | 0 <= i < |results| :: results[i].Segment?
    requires |Stream(results)| == length
    ensures Taken(true, length, 0, results) == (|results|, true)
  {
    TakenBounds(length, 0, results);
    var n := Taken(true, length, 0, results).0;
    assert results[..|results|] == results;
    if n < |results| {
      StreamGrows(results, n);
    }
  }

  lemma StreamEmpty(results: seq<Recv>)
    requires ValidResults(results) && forall i | 0 <= i < |results| :: results[i].Segment?
    ensures Stream(results) == [] <==> results == []
  {
    if results != [] {
      assert |results[|results| - 1].bytes| > 0;
    }
  }

  // Once enough bytes have arrived, and at least one, the loop has ended.
  lemma LoopEnds(opens: bool, length: uint32, results: seq<Recv>)
    requires ValidResults(results) && forall i | 0 <= i < |results| :: results[i].Segment?
    requires results != [] && length + MAXLINE <= WORDS && (opens ==> |Stream(results)| >= length)
    ensures Taken(opens, length, 0, results).1
  {
    hide Stream;
    if opens && length > 0 {
      TakenBounds(length, 0, results);
      assert results[..|results|] == results;
    }
  }

  // However a source is cut into segments, the loop ends on them exactly when the source is not empty.
  lemma LoopEndsIff(opens: bool, source: File, results: seq<Recv>)
    requires ValidResults(results) && forall i | 0 <= i < |results| :: results[i].Segment?
    requires Stream(results) == source && |source| + MAXLINE <= WORDS
    ensures Taken(opens, |source|, 0, results).1 <==> source != []
  {
    hide Stream;
    StreamEmpty(results);
    if source != [] {
      LoopEnds(opens, |source|, results);
    }
  }

  lemma {:induction false} StreamGrows(results: seq<Recv>, n: nat)
    requires ValidResults(results) && n < |results|
    requires forall i | 0 <= i < |results| :: results[i].Segment?
    ensures |Stream(results[..n])| < |Stream(results)|
    decreases |results|
  {
    var k := |results| - 1;
    if n < k {
      StreamGrows(results[..k], n);
      assert results[..k][..n] == results[..n];
    }
  }

  // ----- The handler

  // The disk with the bytes written to the part file from its start; a part file that is not open takes none.
  function WithPart(d: Disk, back: string, opens: bool, bytes: File): (r: Disk)
    requires ValidDisk(d) && back != ""
    ensures ValidDisk(r)
  {
    if opens then
      var (disk, inode) := Opened(d, back);
      disk.(files := disk.files[inode := Overlay(disk.files[inode], 0, bytes)])
    else d
  }

  // The digest check, and the rename when it succeeds.
  function Judged(hash: Hash, d: Disk, path: string, back: string, md5: Digest): (Disk, bool)
    requires ValidDisk(d)
  {
    if DigestOf(hash, d, back) == md5 then (Renamed(d, back, path), true) else (d, false)
  }

  // What becomes of an announcement: the disk with the bytes so far, or the disk after the verdict.
  datatype Service = Waiting(disk: Disk) | Served(disk: Disk, ok: bool)

  function Serve(
    hash: Hash, d: Disk, path: string, back: string, block: FileBlock, opens: bool, results: seq<Recv>): Service
    requires ValidDisk(d) && back != "" && block.length < WORDS
  {
    var (n, ends) := Taken(opens, block.length, 0, results);
    var part := WithPart(d, back, opens, Stream(results[..n]));
    var (judged, ok) := Judged(hash, part, path, back, block.md5);
    if ends then Served(judged, ok) else Waiting(part)
  }

  function Verdict(ok: bool): seq<uint8> {
    HeaderBytes(Header(SEND_FINISH, if ok then ACK_OK else ACK_FAIL), 0)
  }

  class Receiver {
    const hash: Hash
    const buf: array<uint8>
    var filemsg: FileBlock
    var filePath: string
    var filePathBack: string
    var disk: Disk

    ghost predicate Valid()
      reads this
    {
      buf.Length == MAXLINE && ValidDisk(disk)
    }

    constructor (hash: Hash, disk: Disk)
      requires ValidDisk(disk)
      ensures this.hash == hash && this.disk == disk && Valid() && fresh(buf)
      ensures filePath == "" && filePathBack == ""
    {
      this.hash := hash;
      this.disk := disk;
      buf := new uint8[MAXLINE];
      filemsg := NO_BLOCK;
      filePath := "";
      filePathBack := "";
    }

    // Message->type = kind; Message->buf_len = 0.
    method SetReply(kind: nat)
      requires buf.Length == MAXLINE && kind < 0x100
      modifies buf
      ensures buf[..8] == old(buf[..2]) + [kind, 0, 0, 0, 0, 0]
      ensures buf[8..] == old(buf[8..])
    {
      buf[2], buf[3] := kind, 0;
      buf[4], buf[5], buf[6], buf[7] := 0, 0, 0, 0;
    }

    // The receive loop: the segments go through the buffer, which is cleared after each.
    method ReceivePart(opens: bool, inode: nat, results: seq<Recv>) returns (n: nat, ends: bool)
      requires Valid() && ValidResults(results) && filemsg.length < WORDS
      requires opens ==> inode < |disk.files|
      modifies this`disk, buf
      ensures (n, ends) == Taken(opens, filemsg.length, 0, results)
      ensures disk == if opens then
                        old(disk).(files :=
                          old(disk).files[inode := Overlay(old(disk).files[inode], 0, Stream(results[..n]))])
                      else old(disk)
    {
      hide Stream, Overlay, Enough, Taken, Counted;
      var len, at := 0, 0;
      n, ends := 0, false;
      ghost var left := if opens then disk.files[inode] else [];
      StartOfStream(left, results);
      assert results[0..] == results && results[|results|..] == [];
      while !ends && n < |results|
        invariant 0 <= n <= |results| && disk.names == old(disk).names
        invariant !ends ==>
          var (k, e) := Taken(opens, filemsg.length, len, results[n..]);
          Taken(opens, filemsg.length, 0, results) == (n + k, e)
        invariant ends ==> Taken(opens, filemsg.length, 0, results) == (n, true)
        invariant opens ==> at == |Stream(results[..n])|
        invariant opens ==> disk.files == old(disk).files[inode := Overlay(left, 0, Stream(results[..n]))]
        invariant !opens ==> disk == old(disk)
        decreases |results| - n, !ends
      {
        TakenNext(opens, filemsg.length, len, results, n);
        match results[n] {
          case Segment(bytes) =>
            forall i | 0 <= i < |bytes| {
              buf[i] := bytes[i];
            }
            assert buf[..|bytes|] == bytes;
            if opens {
              OverlayTwice(left, 0, Stream(results[..n]), bytes);
              disk := disk.(files := disk.files[inode := Overlay(disk.files[inode], at, buf[..|bytes|])]);
              at := at + |bytes|;
            }
            StreamSnoc(results, n);
            len := Counted(opens, len, bytes);
            forall i | 0 <= i < MAXLINE {
              buf[i] := 0;
            }
            n := n + 1;
            ends := Enough(len, filemsg.length);
          case _ =>
            ends := true;
        }
      }
      TakenNone(opens, filemsg.length, len);
    }

    // The message in the buffer announces a file. Without a verdict the loop still waits for bytes.
    method CmdReqsendDeel(opens: bool, results: seq<Recv>) returns (sent: seq<seq<uint8>>)
      requires Valid() && ValidResults(results)
      modifies this, buf
      ensures Valid() && filemsg == ParseBlock(old(buf[8..]))
      ensures |sent| > 0 && sent[0] == old(buf[..2]) + [ACK_OK, 0, 0, 0, 0, 0]
      ensures
        var path := old(filePath) + "./picture/" + filemsg.name;
        var back := old(filePathBack) + "./picture/" + filemsg.name + ".filepart";
        match Serve(hash, old(disk), path, back, filemsg, opens, results)
        case Waiting(part) => disk == part && |sent| == 1
        case Served(judged, ok) =>
          disk == judged && filePath == "" && filePathBack == "" && |sent| == 2 && sent[1] == Verdict(ok)
    {
      filemsg := ParseBlock(buf[8..]);
      filePath := filePath + PICTUREPATH;
      filePathBack := filePathBack + PICTUREPATH;
      filePath := filePath + filemsg.name;
      filePathBack := filePathBack + filemsg.name;
      filePathBack := filePathBack + FILEPART;
      var inode := OpenPart(opens);
      SetReply(ACK_OK);
      sent := [buf[..8]];
      var n, ends := ReceivePart(opens, inode, results);
      if ends {
        var reply := Judge();
        sent := sent + [reply];
      }
    }

    // open(file_path_back, O_WRONLY | O_CREAT).
    method OpenPart(opens: bool) returns (inode: nat)
      requires Valid() && filePathBack != ""
      modifies this`disk
      ensures ValidDisk(disk)
      ensures if opens then (disk, inode) == Opened(old(disk), filePathBack) && inode < |disk.files|
              else disk == old(disk)
    {
      inode := 0;
      if opens {
        if filePathBack !in disk.names {
          disk := Disk(disk.names[filePathBack := |disk.files|], disk.files + [[]]);
        }
        inode := disk.names[filePathBack];
      }
    }

    // The digest check, the rename and the verdict, written over whatever the buffer holds.
    method Judge() returns (reply: seq<uint8>)
      requires Valid() && filePath != ""
      modifies this`disk, this`filePath, this`filePathBack, buf
      ensures Valid() && filePath == "" && filePathBack == ""
      ensures
        var (judged, ok) := Judged(hash, old(disk), old(filePath), old(filePathBack), filemsg.md5);
        disk == judged && reply == Verdict(ok)
    {
      var md5output := NO_DIGEST;
      if filePathBack in disk.names {
        md5output := hash(disk.files[disk.names[filePathBack]]);
      }
      var same := SameDigest(md5output, filemsg.md5);
      buf[0], buf[1] := SEND_FINISH, 0;
      assert buf[..2] == [SEND_FINISH, 0];
      if same {
        if filePathBack in disk.names {
          disk := disk.(names := disk.names[filePath := disk.names[filePathBack]] - {filePathBack});
        }
        SetReply(ACK_OK);
      } else {
        SetReply(ACK_FAIL);
      }
      filePathBack := "";
      filePath := "";
      reply := buf[..8];
    }
  }

  lemma StartOfStream(left: File, results: seq<Recv>)
    ensures Stream(results[..0]) == [] && Overlay(left, 0, Stream(results[..0])) == left
  {
  }
}
