// A session in which every datagram arrives and every write is whole.
module UdpLossless {

  import opened TransferFiles
  import opened UdpServer
  import opened UdpClient
  import opened UdpSession
  import opened UdpSafety
  import opened UdpOrder

  function Complete(s: Server, m: Message): Outcome {
    Outcome(true, if m.Chunk? && !s.fd.Bad? then |m.bytes| else -1)
  }

  // The delivery of what was sent last, and the one of the reply it gets.
  function Sent(y: Session): Event
    requires y.sent != []
  {
    ToServer(|y.sent| - 1, Complete(y.server, y.sent[|y.sent| - 1]))
  }

  ghost predicate CanRound(hash: Hash, src: Source, y: Session) {
    && y.sent != [] && Possible(y, Sent(y))
    && Possible(Next(hash, src, y, Sent(y)), ToClient(|y.replies|))
  }

  // What was sent last is handled, and its reply makes the sender send the next datagram.
  ghost function Round(hash: Hash, src: Source, y: Session): Session {
    if CanRound(hash, src, y) then Next(hash, src, Next(hash, src, y, Sent(y)), ToClient(|y.replies|)) else y
  }

  ghost function Rounds(hash: Hash, src: Source, y: Session, k: nat): Session {
    if k == 0 then y else Round(hash, src, Rounds(hash, src, y, k - 1))
  }

  // A session with a server that may have had others before.
  function Begin(hash: Hash, src: Source, s: Server): Session {
    Session(START, [Announcement(src, hash)], s, [], false, true, [], [])
  }

  // The rounds are runs of the session.
  lemma {:induction false} RoundsLead(hash: Hash, src: Source, y: Session, k: nat) returns (events: seq<Event>)
    ensures Leads(hash, src, y, events, Rounds(hash, src, y, k))
  {
    hide Leads, Next, Possible, Sent;
    if k == 0 {
      LeadsNone(hash, src, y);
      events := [];
    } else {
      events := RoundsLead(hash, src, y, k - 1);
      var x := Rounds(hash, src, y, k - 1);
      if CanRound(hash, src, x) {
        LeadsNext(hash, src, y, events, x, Sent(x));
        events := events + [Sent(x)];
        LeadsNext(hash, src, y, events, Next(hash, src, x, Sent(x)), ToClient(|x.replies|));
        events := events + [ToClient(|x.replies|)];
      }
    }
  }

  function ChunkCount(f: File): nat {
    (|f| + BUF_MAX_LEN - 1) / BUF_MAX_LEN
  }

  lemma ChunkCountIs(f: File, i: nat)
    ensures ChunkAt(f, i) == [] <==> i >= ChunkCount(f)
  {
  }

  // The first k chunks of f.
  function Prefix(f: File, k: nat): (p: File)
    ensures |p| == Min(BUF_MAX_LEN * k, |f|)
  {
    f[..Min(BUF_MAX_LEN * k, |f|)]
  }

  lemma PrefixNext(f: File, k: nat)
    ensures Prefix(f, k + 1) == Prefix(f, k) + ChunkAt(f, k)
    ensures k >= ChunkCount(f) ==> Prefix(f, k) == f
  {
  }

  // Between sessions.
  ghost predicate Ready(s: Server) {
    Valid(s) && s.path == "" && s.back == ""
  }

  // The disk after k chunks: as d was, but for the part file, which holds them over what was left in it.
  ghost predicate Stored(src: Source, d: Disk, k: nat, e: Disk) {
    var part := PartInode(d, PartOf(src));
    && ValidDisk(d) && ValidDisk(e) && e.names == d.names[PartOf(src) := part]
    && part < |e.files| && |d.files| <= |e.files|
    && (forall i | 0 <= i < |d.files| && i != part :: e.files[i] == d.files[i])
    && e.files[part] == Overlay(Leftover(d, PartOf(src)), 0, Prefix(src.contents, k))
  }

  ghost predicate Transferred(hash: Hash, src: Source, d: Disk, k: nat, s: Server) {
    && Valid(s) && s.path == PathOf(src) && s.back == PartOf(src) && s.filemsg.md5 == hash(src.contents)
    && s.fd == Part(PartInode(d, PartOf(src)), |Prefix(src.contents, k)|)
    && Stored(src, d, k, s.disk)
  }

  // k chunks have been stored and acknowledged, and the next datagram is sent.
  ghost predicate Sending(hash: Hash, src: Source, d: Disk, k: nat, y: Session) {
    && Transferred(hash, src, d, k, y.server) && y.published == [] && y.late == []
    && |y.sent| > 1 && y.sent[1] == ChunkMessage(src, 0)
    && var last := y.sent[|y.sent| - 1];
       if k < ChunkCount(src.contents) then
         y.client.phase == AwaitChunk && y.client.index == k && last == ChunkMessage(src, k)
       else y.client.phase == AwaitVerdict && last == Finish(REQ_NOR)
  }

  lemma AnnounceRound(hash: Hash, src: Source, s: Server)
    requires Ready(s) && src.opens && src.contents != []
    ensures Sending(hash, src, s.disk, 0, Round(hash, src, Begin(hash, src, s)))
  {
    hide Overlay, ChunkAt, ChunkCount;
    ChunkCountIs(src.contents, 0);
    OverlayNothing(Leftover(s.disk, PartOf(src)));
    var y := Begin(hash, src, s);
    var x := Next(hash, src, y, Sent(y));
    assert x.server.path == PathOf(src) && x.server.back == PartOf(src);
    assert x.replies == [Header(SEND_FILEMSG_REQ, ACK_OK)];
    assert Prefix(src.contents, 0) == [];
  }

  lemma ChunkStored(src: Source, d: Disk, k: nat, e: Disk)
    requires Stored(src, d, k, e)
    ensures
      var fd := Part(PartInode(d, PartOf(src)), |Prefix(src.contents, k)|);
      Stored(src, d, k + 1, UdpServer.Stored(e, fd, ChunkAt(src.contents, k)))
  {
    hide Overlay, Prefix, ChunkAt;
    PrefixNext(src.contents, k);
    OverlayTwice(Leftover(d, PartOf(src)), 0, Prefix(src.contents, k), ChunkAt(src.contents, k));
  }

  lemma ChunkTransferred(hash: Hash, src: Source, d: Disk, k: nat, s: Server)
    requires Transferred(hash, src, d, k, s)
    ensures
      var chunk := ChunkAt(src.contents, k);
      Transferred(hash, src, d, k + 1, Received(s, chunk, |chunk|))
  {
    hide Overlay, Prefix, ChunkAt, Stored;
    var chunk := ChunkAt(src.contents, k);
    PrefixNext(src.contents, k);
    assert chunk[..|chunk|] == chunk;
    ChunkStored(src, d, k, s.disk);
    ReceivedValid(s, chunk, |chunk|);
  }

  lemma ChunkRound(hash: Hash, src: Source, d: Disk, k: nat, y: Session)
    requires Sending(hash, src, d, k, y) && k < ChunkCount(src.contents)
    ensures Sending(hash, src, d, k + 1, Round(hash, src, y))
  {
    hide ChunkAt, ChunkCount, Transferred, Valid;
    var chunk := ChunkAt(src.contents, k);
    PartOpen(hash, src, d, k, y.server);
    ChunkTransferred(hash, src, d, k, y.server);
    PartOpen(hash, src, d, k + 1, Received(y.server, chunk, |chunk|));
    ChunkCountIs(src.contents, k + 1);
    var x := Next(hash, src, y, Sent(y));
    assert x.replies[|y.replies|] == Header(SEND_FILE, ACK_OK);
  }

  lemma PartOpen(hash: Hash, src: Source, d: Disk, k: nat, s: Server)
    requires Transferred(hash, src, d, k, s)
    ensures Valid(s) && s.fd.Part?
  {
  }

  // After the announcement and k chunks, the part file starts with the first min(4096k, length) bytes of the source.
  lemma {:induction false} AfterChunks(hash: Hash, src: Source, s: Server, k: nat)
    requires Ready(s) && src.opens && src.contents != [] && k <= ChunkCount(src.contents)
    ensures Sending(hash, src, s.disk, k, Rounds(hash, src, Begin(hash, src, s), k + 1))
  {
    hide Sending, Round;
    if k == 0 {
      assert Rounds(hash, src, Begin(hash, src, s), 0) == Begin(hash, src, s);
      AnnounceRound(hash, src, s);
    } else {
      AfterChunks(hash, src, s, k - 1);
      ChunkRound(hash, src, s.disk, k - 1, Rounds(hash, src, Begin(hash, src, s), k));
    }
  }

  lemma FinishRound(hash: Hash, src: Source, d: Disk, y: Session)
    requires Sending(hash, src, d, ChunkCount(src.contents), y)
    ensures
      var z := Round(hash, src, y);
      var part := Overlay(Leftover(d, PartOf(src)), 0, src.contents);
      && z.server.path == "" && z.server.back == "" && Valid(z.server)
      && z.client.phase == Stopped(if hash(part) == hash(src.contents) then Confirmed else Failed)
      && (if hash(part) == hash(src.contents) then
            Moved(d, z.server.disk, PartOf(src), PathOf(src))
            && z.server.disk.files[z.server.disk.names[PathOf(src)]] == part
          else
            PartOf(src) in z.server.disk.names && z.server.disk.files[z.server.disk.names[PartOf(src)]] == part)
  {
    hide Overlay, Prefix, ChunkCount;
    PrefixNext(src.contents, ChunkCount(src.contents));
    HandledValid(hash, y.server, Finish(REQ_NOR), Complete(y.server, Finish(REQ_NOR)));
    var x := Next(hash, src, y, Sent(y));
    assert x.replies[|y.replies|].cmd == SEND_FINISH;
  }

  // A lossless session publishes a nonempty source unchanged exactly when no longer part file was left over, and
  // then the part file's name is gone and nothing else on the disk has changed; otherwise what was left of it shows,
  // and the sender is told that the transfer failed.
  lemma LosslessSession(hash: Hash, src: Source, s: Server) returns (events: seq<Event>, z: Session)
    requires Ready(s) && src.opens && src.contents != [] && NoCollision(hash, src.contents)
    ensures z == Rounds(hash, src, Begin(hash, src, s), ChunkCount(src.contents) + 2)
    ensures Leads(hash, src, Begin(hash, src, s), events, z)
    ensures
      && (z.client.phase == Stopped(Confirmed) <==> |Leftover(s.disk, PartOf(src))| <= |src.contents|)
      && (z.client.phase == Stopped(Confirmed) ==>
            Ready(z.server) && Moved(s.disk, z.server.disk, PartOf(src), PathOf(src))
            && z.server.disk.files[z.server.disk.names[PathOf(src)]] == src.contents)
      && (z.client.phase != Stopped(Confirmed) ==>
            z.client.phase == Stopped(Failed) && Ready(z.server) && PartOf(src) in z.server.disk.names
            && z.server.disk.files[z.server.disk.names[PartOf(src)]]
               == Overlay(Leftover(s.disk, PartOf(src)), 0, src.contents))
  {
    hide Sending, Round, Overlay;
    var n := ChunkCount(src.contents);
    z := Rounds(hash, src, Begin(hash, src, s), n + 2);
    events := RoundsLead(hash, src, Begin(hash, src, s), n + 2);
    AfterChunks(hash, src, s, n);
    FinishRound(hash, src, s.disk, Rounds(hash, src, Begin(hash, src, s), n + 1));
    OverlayWhole(Leftover(s.disk, PartOf(src)), src.contents);
    assert z == Round(hash, src, Rounds(hash, src, Begin(hash, src, s), n + 1));
  }

  // After a confirmed transfer, any other nonempty source goes to the same name as well.
  lemma NextSession(hash: Hash, src: Source, next: Source, s: Server) returns (y: Session, z: Session)
    requires Ready(s) && src.opens && src.contents != [] && NoCollision(hash, src.contents)
    requires next.name == src.name && next.opens && next.contents != [] && NoCollision(hash, next.contents)
    requires |Leftover(s.disk, PartOf(src))| <= |src.contents|
    ensures y == Rounds(hash, src, Begin(hash, src, s), ChunkCount(src.contents) + 2)
    ensures z == Rounds(hash, next, Begin(hash, next, y.server), ChunkCount(next.contents) + 2)
    ensures y.client.phase == Stopped(Confirmed) && z.client.phase == Stopped(Confirmed)
    ensures Valid(z.server) && PathOf(src) in z.server.disk.names
    ensures z.server.disk.files[z.server.disk.names[PathOf(src)]] == next.contents
  {
    hide Rounds, ChunkCount, NoCollision;
    var events;
    events, y := LosslessSession(hash, src, s);
    events, z := LosslessSession(hash, next, y.server);
  }
}
