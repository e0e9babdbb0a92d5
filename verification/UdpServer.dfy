// The receiver of filesend/udpfilesend/udp-server.c: the three handlers and the dispatch table.
module UdpServer {

  import opened TransferFiles

  // ----- The wire

  const BUF_MAX_LEN: nat := 4096

  // A datagram from the client. The index of a chunk is not on the wire: it tells the chunks of the source apart,
  // and no handler reads it.
  datatype Message =
    | Announce(kind: nat, block: FileBlock)
    | Chunk(kind: nat, bytes: File, index: nat)
    | Finish(kind: nat)
    | Other(header: Header)

  function HeaderOf(m: Message): Header {
    match m
    case Announce(kind, _) => Header(SEND_FILEMSG_REQ, kind)
    case Chunk(kind, _, _) => Header(SEND_FILE, kind)
    case Finish(kind) => Header(SEND_FINISH, kind)
    case Other(header) => header
  }

  // ----- The globals

  // Where write(fd, ...) goes: nowhere the model sees, nowhere at all, or a position in a file.
  datatype Descriptor = Stdin | Bad | Part(inode: nat, at: nat)

  datatype Server = Server(filemsg: FileBlock, path: string, back: string, fd: Descriptor, disk: Disk)

  const PICTUREPATH: string := "/mnt/"
  const FILEPART: string := ".filepart"

  ghost predicate Valid(s: Server) {
    && ValidDisk(s.disk)
    && (s.fd.Part? ==> s.fd.inode < |s.disk.files| && s.fd.at <= |s.disk.files[s.fd.inode]|)
  }

  // The globals as the program starts.
  ghost predicate Fresh(s: Server) {
    Valid(s) && s.filemsg == NO_BLOCK && s.path == "" && s.back == "" && s.fd == Stdin
  }

  // How the system calls behind one datagram turn out: whether open succeeds, and what write returns.
  datatype Outcome = Outcome(opens: bool, written: int)

  // What write can return; the three commands are always read as their own messages.
  ghost predicate Legal(s: Server, m: Message, o: Outcome) {
    && (m.Chunk? ==> -1 <= o.written <= |m.bytes| && (s.fd.Bad? ==> o.written == -1))
    && (m.Other? ==> m.header.cmd !in {SEND_FILEMSG_REQ, SEND_FILE, SEND_FINISH})
  }

  // ----- The handlers as functions of the globals

  function Announced(s: Server, block: FileBlock, opens: bool): Server {
    var path := s.path + PICTUREPATH + block.name;
    var back := s.back + PICTUREPATH + block.name + FILEPART;
    if opens then
      var (disk, inode) := Opened(s.disk, back);
      Server(block, path, back, Part(inode, 0), disk)
    else
      Server(block, path, back, Bad, s.disk)
  }

  function Stored(d: Disk, fd: Descriptor, bytes: File): Disk
    requires fd.Part? ==> fd.inode < |d.files|
  {
    if fd.Part? then d.(files := d.files[fd.inode := Overlay(d.files[fd.inode], fd.at, bytes)]) else d
  }

  function Advanced(fd: Descriptor, n: nat): Descriptor {
    if fd.Part? then Part(fd.inode, fd.at + n) else fd
  }

  function Received(s: Server, bytes: File, written: int): Server
    requires Valid(s) && -1 <= written <= |bytes|
  {
    if written == -1 then s.(path := "", back := "", fd := Bad)
    else s.(fd := Advanced(s.fd, written), disk := Stored(s.disk, s.fd, bytes[..written]))
  }

  predicate Matches(hash: Hash, s: Server)
    requires Valid(s)
  {
    DigestOf(hash, s.disk, s.back) == s.filemsg.md5
  }

  // The descriptor stays open.
  function Finished(hash: Hash, s: Server): Server
    requires Valid(s)
  {
    s.(path := "", back := "", disk := if Matches(hash, s) then Renamed(s.disk, s.back, s.path) else s.disk)
  }

  // One datagram: the new globals and the replies, of which there is at most one.
  function Handled(hash: Hash, s: Server, m: Message, o: Outcome): (Server, seq<Header>)
    requires Valid(s) && Legal(s, m, o)
  {
    if m.Announce? && m.kind == REQ_NOR then
      (Announced(s, m.block, o.opens), [Header(SEND_FILEMSG_REQ, if o.opens then ACK_OK else ACK_FAIL)])
    else if m.Chunk? && m.kind == REQ_NORE then
      (Received(s, m.bytes, o.written), [Header(SEND_FILE, if o.written == -1 then ACK_NOSP else ACK_OK)])
    else if m.Finish? && m.kind == REQ_NOR then
      (Finished(hash, s), [Header(SEND_FINISH, if Matches(hash, s) then ACK_OK else ACK_FAIL)])
    else
      (s, [])
  }

  // Which datagrams are handled at all, and the header of the reply to each; the others change nothing.
  lemma DispatchIff(hash: Hash, s: Server, m: Message, o: Outcome)
    requires Valid(s) && Legal(s, m, o)
    ensures
      var (s', replies) := Handled(hash, s, m, o);
      var h := HeaderOf(m);
      && (h in {Header(1, 0), Header(2, 4), Header(3, 0)} <==> replies != [])
      && (replies == [] ==> s' == s)
      && (h == Header(1, 0) ==> replies == [Header(1, if o.opens then 1 else 2)])
      && (h == Header(2, 4) ==> replies == [Header(2, if o.written == -1 then 3 else 1)])
      && (h == Header(3, 0) ==> replies == [Header(3, if Matches(hash, s) then 1 else 2)])
  {
  }

  lemma HandledValid(hash: Hash, s: Server, m: Message, o: Outcome)
    requires Valid(s) && Legal(s, m, o)
    requires s.path == "" <==> s.back == ""
    ensures
      var s' := Handled(hash, s, m, o).0;
      Valid(s') && (s'.path == "" <==> s'.back == "")
  {
  }

  lemma ReceivedValid(s: Server, bytes: File, written: int)
    requires Valid(s) && -1 <= written <= |bytes|
    ensures Valid(Received(s, bytes, written))
  {
  }

  // ----- The program

  class Receiver {
    const hash: Hash
    var filemsg: FileBlock
    var filePath: string
    var filePathBack: string
    var fd: Descriptor
    var disk: Disk

    ghost function State(): Server
      reads this
    {
      Server(filemsg, filePath, filePathBack, fd, disk)
    }

    constructor (hash: Hash, disk: Disk)
      requires ValidDisk(disk)
      ensures this.hash == hash && Fresh(State()) && this.disk == disk
    {
      this.hash := hash;
      this.disk := disk;
      filemsg := NO_BLOCK;
      filePath := "";
      filePathBack := "";
      fd := Stdin;
    }

    method CmdReqsendDeel(block: FileBlock, opens: bool) returns (reply: Header)
      requires Valid(State())
      modifies this
      ensures State() == Announced(old(State()), block, opens)
      ensures reply == Header(SEND_FILEMSG_REQ, if opens then ACK_OK else ACK_FAIL)
    {
      filemsg := block;
      filePath := filePath + PICTUREPATH;
      filePath := filePath + filemsg.name;
      filePathBack := filePathBack + PICTUREPATH;
      filePathBack := filePathBack + filemsg.name;
      filePathBack := filePathBack + FILEPART;
      reply := Header(SEND_FILEMSG_REQ, ACK_FAIL);
      if opens {
        if filePathBack !in disk.names {
          disk := Disk(disk.names[filePathBack := |disk.files|], disk.files + [[]]);
        }
        fd := Part(disk.names[filePathBack], 0);
        reply := reply.(kind := ACK_OK);
      } else {
        fd := Bad;
      }
    }

    method CmdRevfile(bytes: File, written: int) returns (reply: Header)
      requires Valid(State()) && -1 <= written <= |bytes|
      modifies this
      ensures State() == Received(old(State()), bytes, written)
      ensures reply == Header(SEND_FILE, if written == -1 then ACK_NOSP else ACK_OK)
    {
      reply := Header(SEND_FILE, ACK_OK);
      if written == -1 {
        filePathBack := "";
        filePath := "";
        reply := reply.(kind := ACK_NOSP);
        fd := Bad;
      } else if fd.Part? {
        disk := disk.(files := disk.files[fd.inode := Overlay(disk.files[fd.inode], fd.at, bytes[..written])]);
        fd := fd.(at := fd.at + written);
      }
    }

    method CmdRevfilefinsh() returns (reply: Header)
      requires Valid(State())
      modifies this
      ensures State() == Finished(hash, old(State()))
      ensures reply == Header(SEND_FINISH, if Matches(hash, old(State())) then ACK_OK else ACK_FAIL)
    {
      var md5output := NO_DIGEST;
      if filePathBack in disk.names {
        md5output := hash(disk.files[disk.names[filePathBack]]);
      }
      var same := SameDigest(md5output, filemsg.md5);
      if !same {
        reply := Header(SEND_FINISH, ACK_FAIL);
      } else {
        reply := Header(SEND_FINISH, ACK_OK);
        if filePathBack in disk.names {
          disk := disk.(names := disk.names[filePath := disk.names[filePathBack]] - {filePathBack});
        }
      }
      filePathBack := "";
      filePath := "";
    }

    // The search of the dispatch table for the command and the type.
    method OnRecv(m: Message, o: Outcome) returns (replies: seq<Header>)
      requires Valid(State()) && Legal(State(), m, o)
      modifies this
      ensures State() == Handled(hash, old(State()), m, o).0
      ensures replies == Handled(hash, old(State()), m, o).1
    {
      var table := [Header(SEND_FILEMSG_REQ, REQ_NOR), Header(SEND_FILE, REQ_NORE), Header(SEND_FINISH, REQ_NOR)];
      replies := [];
      var i := 0;
      while i < 3
        invariant 0 <= i <= 3
        invariant forall k | 0 <= k < i :: table[k] != HeaderOf(m)
        invariant replies == [] && State() == old(State())
      {
        if table[i] == HeaderOf(m) {
          var reply;
          match m {
            case Announce(_, block) => reply := CmdReqsendDeel(block, o.opens);
            case Chunk(_, bytes, _) => reply := CmdRevfile(bytes, o.written);
            case Finish(_) => reply := CmdRevfilefinsh();
            case Other(_) => assert false;
          }
          replies := [reply];
          return;
        }
        i := i + 1;
      }
      assert table[0] != HeaderOf(m) && table[1] != HeaderOf(m) && table[2] != HeaderOf(m);
    }
  }
}
