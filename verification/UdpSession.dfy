// One session of the two ends over a network that loses, repeats and reorders datagrams.
module UdpSession {

  import opened TransferFiles
  import opened UdpServer
  import opened UdpClient

  // A successful FINISH: the name given, what the part file held, which file it was, and where its descriptor stood.
  datatype Publication = Publication(path: string, content: File, inode: nat, at: nat)

  // Both ends, everything either has sent, whether the announcement was delivered and whether the network keeps from
  // delivering it again, the publications, and the bytes written through the descriptor after a publication.
  datatype Session = Session(
    client: Client, sent: seq<Message>, server: Server, replies: seq<Header>,
    announced: bool, once: bool, published: seq<Publication>, late: File)

  // The network delivers any datagram ever sent, any number of times, or none; the announcement once at most,
  // if it promises so.
  datatype Event = ToServer(i: nat, outcome: Outcome) | ToClient(j: nat) | Expire

  ghost predicate Possible(y: Session, e: Event) {
    && Valid(y.server)
    && match e
       case ToServer(i, o) =>
         i < |y.sent| && Legal(y.server, y.sent[i], o) && (y.sent[i].Announce? && y.once ==> !y.announced)
       case ToClient(j) => j < |y.replies| && !y.client.phase.Stopped?
       case Expire => !y.client.phase.Stopped?
  }

  // The part file that a matching FINISH publishes.
  function Published(hash: Hash, s: Server, m: Message): seq<Publication>
    requires Valid(s)
  {
    if m == Finish(REQ_NOR) && Matches(hash, s) && s.back in s.disk.names then
      var inode := s.disk.names[s.back];
      [Publication(s.path, s.disk.files[inode], inode, if s.fd.Part? then s.fd.at else 0)]
    else []
  }

  function WrittenBy(s: Server, m: Message, o: Outcome): File
    requires Legal(s, m, o)
  {
    if m.Chunk? && m.kind == REQ_NORE && s.fd.Part? && o.written >= 0 then m.bytes[..o.written] else []
  }

  function ServerStep(hash: Hash, y: Session, m: Message, o: Outcome): Session
    requires Valid(y.server) && Legal(y.server, m, o)
  {
    var (s, replies) := Handled(hash, y.server, m, o);
    y.(server := s, replies := y.replies + replies, announced := y.announced || m.Announce?,
       published := y.published + Published(hash, y.server, m),
       late := if y.published == [] then [] else y.late + WrittenBy(y.server, m, o))
  }

  function ClientStep(src: Source, y: Session, r: Receive): Session {
    var (c, more) := Step(src, y.client, r);
    y.(client := c, sent := y.sent + more)
  }

  function Next(hash: Hash, src: Source, y: Session, e: Event): Session
    requires Possible(y, e)
  {
    match e
    case ToServer(i, o) => ServerStep(hash, y, y.sent[i], o)
    case ToClient(j) => ClientStep(src, y, Reply(y.replies[j]))
    case Expire => ClientStep(src, y, Timeout)
  }

  // The announcement sent to a server that has just started.
  ghost predicate Starts(hash: Hash, src: Source, y: Session) {
    && y.client == START && y.sent == [Announcement(src, hash)] && Fresh(y.server)
    && y.replies == [] && !y.announced && y.published == [] && y.late == []
  }

  ghost predicate Leads(hash: Hash, src: Source, y: Session, events: seq<Event>, z: Session)
    decreases |events|
  {
    if events == [] then z == y
    else Possible(y, events[0]) && Leads(hash, src, Next(hash, src, y, events[0]), events[1..], z)
  }

  function PathOf(src: Source): (p: string)
    ensures p != ""
  {
    PICTUREPATH + src.name
  }

  function PartOf(src: Source): (p: string)
    ensures p != "" && p != PathOf(src)
  {
    PICTUREPATH + src.name + FILEPART
  }

  // ----- The invariant

  const YES: Header := Header(SEND_FINISH, ACK_OK)

  ghost predicate SentOnce(hash: Hash, src: Source, sent: seq<Message>) {
    && |sent| > 0 && sent[0] == Announcement(src, hash)
    && forall i | 0 < i < |sent| :: sent[i] == Finish(REQ_NOR) || (sent[i].Chunk? && sent[i].kind == REQ_NORE)
  }

  // Before the announcement is delivered.
  ghost predicate Waiting(y: Session) {
    && Fresh(y.server) && y.replies == [] && |y.sent| == 1 && y.published == []
    && y.client.phase in {AwaitOpen, Stopped(Refused)}
  }

  // The part file did not open.
  ghost predicate Closed(y: Session) {
    && |y.sent| == 1 && y.published == [] && y.client.phase in {AwaitOpen, Stopped(Refused)}
    && forall h | h in y.replies :: h == Header(SEND_FILEMSG_REQ, ACK_FAIL)
  }

  // The part file is open under its name.
  ghost predicate Receiving(src: Source, y: Session) {
    && y.server.path == PathOf(src) && y.server.back == PartOf(src) && y.published == []
    && y.server.fd.Part? && PartOf(src) in y.server.disk.names
    && y.server.disk.names[PartOf(src)] == y.server.fd.inode
  }

  // The paths are cleared: FINISH came, or a write failed.
  ghost predicate Over(hash: Hash, src: Source, y: Session) {
    && y.server.path == "" && y.server.back == "" && |y.published| <= 1
    && (y.published != [] ==> Kept(hash, src, y, y.published[0]))
  }

  // The published file is still what was published, but for the chunks that came after it.
  ghost predicate Kept(hash: Hash, src: Source, y: Session, p: Publication) {
    && hash(p.content) == hash(src.contents) && p.at <= |p.content|
    && PathOf(src) in y.server.disk.names && y.server.disk.names[PathOf(src)] == p.inode
    && p.inode < |y.server.disk.files|
    && y.server.disk.files[p.inode] == Overlay(p.content, p.at, y.late)
    && (y.server.fd.Part? ==> y.server.fd == Part(p.inode, p.at + |y.late|))
  }

  ghost predicate Inv(hash: Hash, src: Source, y: Session) {
    && Valid(y.server) && SentOnce(hash, src, y.sent) && y.once
    && (YES in y.replies ==> y.published != [])
    && (y.client.phase == Stopped(Confirmed) ==> YES in y.replies)
    && (y.published == [] ==> y.late == [])
    && if !y.announced then Waiting(y)
       else
         && y.server.filemsg.md5 == hash(src.contents)
         && (Closed(y) || Receiving(src, y) || Over(hash, src, y))
  }

  lemma ClientKeeps(hash: Hash, src: Source, y: Session, r: Receive)
    requires Inv(hash, src, y)
    requires r.Reply? ==> r.header in y.replies
    ensures Inv(hash, src, ClientStep(src, y, r))
  {
    hide Valid, Overlay;
    var (c, more) := Step(src, y.client, r);
    var z := ClientStep(src, y, r);
    assert forall i | 0 <= i < |more| :: more[i] == Finish(REQ_NOR) || (more[i].Chunk? && more[i].kind == REQ_NORE);
    assert SentOnce(hash, src, z.sent);
    if y.announced && Over(hash, src, y) && y.published != [] {
      assert Kept(hash, src, z, y.published[0]);
    }
  }

  lemma AnnouncementKeeps(hash: Hash, src: Source, y: Session, o: Outcome)
    requires Inv(hash, src, y) && src.opens && !y.announced
    ensures Legal(y.server, y.sent[0], o) && Inv(hash, src, ServerStep(hash, y, y.sent[0], o))
  {
    var z := ServerStep(hash, y, y.sent[0], o);
    assert z.server.path == PathOf(src) && z.server.back == PartOf(src);
  }

  // A chunk written after the publication goes on where the descriptor stood.
  lemma LateWrite(s: Server, p: Publication, late: File, bytes: File, written: int)
    requires Valid(s) && -1 <= written <= |bytes| && p.at <= |p.content|
    requires p.inode < |s.disk.files| && s.disk.files[p.inode] == Overlay(p.content, p.at, late)
    requires s.fd.Part? ==> s.fd == Part(p.inode, p.at + |late|)
    ensures
      var s' := Received(s, bytes, written);
      var late' := late + (if s.fd.Part? && written >= 0 then bytes[..written] else []);
      && |s'.disk.files| == |s.disk.files| && s'.disk.files[p.inode] == Overlay(p.content, p.at, late')
      && (s'.fd.Part? ==> s'.fd == Part(p.inode, p.at + |late'|))
  {
    hide Overlay;
    if s.fd.Part? && written >= 0 {
      OverlayTwice(p.content, p.at, late, bytes[..written]);
    } else {
      assert late + [] == late;
    }
  }

  lemma LateChunk(hash: Hash, src: Source, y: Session, m: Message, o: Outcome)
    requires Inv(hash, src, y) && Over(hash, src, y) && y.published != []
    requires m.Chunk? && m.kind == REQ_NORE && Legal(y.server, m, o)
    ensures Kept(hash, src, ServerStep(hash, y, m, o), y.published[0])
  {
    hide Overlay, Received, Valid;
    LateWrite(y.server, y.published[0], y.late, m.bytes, o.written);
    ReceivedNames(y.server, m.bytes, o.written);
  }

  lemma ReceivedNames(s: Server, bytes: File, written: int)
    requires Valid(s) && -1 <= written <= |bytes|
    ensures Received(s, bytes, written).disk.names == s.disk.names
  {
  }

  lemma ChunkStored(hash: Hash, s: Server, m: Message, o: Outcome)
    requires Valid(s) && Legal(s, m, o) && m.Chunk? && m.kind == REQ_NORE
    ensures
      var (s', replies) := Handled(hash, s, m, o);
      Valid(s') && s'.filemsg == s.filemsg && s'.disk.names == s.disk.names && YES !in replies
      && if o.written == -1 then s'.path == s'.back == ""
         else s'.path == s.path && s'.back == s.back && (s.fd.Part? ==> s'.fd.Part? && s'.fd.inode == s.fd.inode)
  {
    ReceivedValid(s, m.bytes, o.written);
  }

  lemma ChunkKeeps(hash: Hash, src: Source, y: Session, m: Message, o: Outcome)
    requires Inv(hash, src, y) && y.announced && !Closed(y)
    requires m.Chunk? && m.kind == REQ_NORE && Legal(y.server, m, o)
    ensures Inv(hash, src, ServerStep(hash, y, m, o))
  {
    hide Valid, Overlay, Handled, Kept;
    ChunkStored(hash, y.server, m, o);
    if Over(hash, src, y) && y.published != [] {
      LateChunk(hash, src, y, m, o);
    }
  }

  lemma FinishKeeps(hash: Hash, src: Source, y: Session, o: Outcome)
    requires Inv(hash, src, y) && y.announced && !Closed(y)
    requires hash(src.contents) != NO_DIGEST
    ensures Inv(hash, src, ServerStep(hash, y, Finish(REQ_NOR), o))
  {
    var z := ServerStep(hash, y, Finish(REQ_NOR), o);
    if Receiving(src, y) && Matches(hash, y.server) {
      assert Kept(hash, src, z, z.published[0]);
    } else if Over(hash, src, y) && y.published != [] {
      assert Kept(hash, src, z, y.published[0]);
    }
  }

  lemma Keeps(hash: Hash, src: Source, y: Session, e: Event)
    requires Inv(hash, src, y) && Possible(y, e)
    requires src.opens && hash(src.contents) != NO_DIGEST
    ensures Inv(hash, src, Next(hash, src, y, e))
  {
    hide Valid, ServerStep, ClientStep, Kept, Over, Receiving, Legal, Matches;
    match e
    case ToClient(j) => ClientKeeps(hash, src, y, Reply(y.replies[j]));
    case Expire => ClientKeeps(hash, src, y, Timeout);
    case ToServer(i, o) =>
      if i == 0 {
        AnnouncementKeeps(hash, src, y, o);
      } else if y.sent[i].Chunk? {
        ChunkKeeps(hash, src, y, y.sent[i], o);
      } else {
        FinishKeeps(hash, src, y, o);
      }
  }

  lemma {:induction false} AlwaysInv(hash: Hash, src: Source, y: Session, events: seq<Event>, z: Session)
    requires Inv(hash, src, y) && Leads(hash, src, y, events, z)
    requires src.opens && hash(src.contents) != NO_DIGEST
    ensures Inv(hash, src, z)
    decreases |events|
  {
    hide Inv, Next, Possible;
    if events != [] {
      Keeps(hash, src, y, events[0]);
      AlwaysInv(hash, src, Next(hash, src, y, events[0]), events[1..], z);
    }
  }
}
