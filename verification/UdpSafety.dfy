// When "file send is ok" can be believed, over every run of a session.
module UdpSafety {

  import opened TransferFiles
  import opened UdpServer
  import opened UdpClient
  import opened UdpSession

  // A sender that was told ok: the server found one part file with the announced digest and gave it its name,
  // where it still is, but for the chunks written since.
  ghost predicate Safe(hash: Hash, src: Source, z: Session) {
    z.client.phase == Stopped(Confirmed) ==>
      && |z.published| == 1 && Valid(z.server)
      && Kept(hash, src, z, z.published[0])
  }

  ghost predicate AlwaysSafe(hash: Hash, src: Source) {
    forall y, events, z | Starts(hash, src, y) && y.once && Leads(hash, src, y, events, z) :: Safe(hash, src, z)
  }

  lemma SafeRun(hash: Hash, src: Source, y: Session, events: seq<Event>, z: Session)
    requires Starts(hash, src, y) && y.once && Leads(hash, src, y, events, z)
    requires src.opens && hash(src.contents) != NO_DIGEST
    ensures Safe(hash, src, z)
  {
    assert Inv(hash, src, y);
    AlwaysInv(hash, src, y, events, z);
  }

  // ----- A source that does not open or is empty is never confirmed

  ghost predicate Idle(y: Session) {
    y.client.phase in {AwaitOpen, Stopped(Refused), Stopped(Unopened), Stopped(NothingToSend)}
  }

  lemma {:induction false} StaysIdle(hash: Hash, src: Source, y: Session, events: seq<Event>, z: Session)
    requires Idle(y) && Leads(hash, src, y, events, z)
    requires !src.opens || src.contents == []
    ensures Idle(z)
    decreases |events|
  {
    if events != [] {
      StaysIdle(hash, src, Next(hash, src, y, events[0]), events[1..], z);
    }
  }

  // ----- A source whose digest is all zero

  lemma {:induction false} LeadsOn(
    hash: Hash, src: Source, x: Session, d: seq<Event>, y: Session, e: seq<Event>, z: Session)
    requires Leads(hash, src, x, d, y) && Leads(hash, src, y, e, z)
    ensures Leads(hash, src, x, d + e, z)
    decreases |d|
  {
    hide Possible, Next;
    if d == [] {
      assert d + e == e;
    } else {
      LeadsOn(hash, src, Next(hash, src, x, d[0]), d[1..], y, e, z);
      assert (d + e)[1..] == d[1..] + e;
    }
  }

  lemma LeadsNone(hash: Hash, src: Source, y: Session)
    ensures Leads(hash, src, y, [], y)
  {
  }

  lemma LeadsNext(hash: Hash, src: Source, x: Session, d: seq<Event>, y: Session, e: Event)
    requires Leads(hash, src, x, d, y) && Possible(y, e)
    ensures Leads(hash, src, x, d + [e], Next(hash, src, y, e))
  {
    hide Possible, Next;
    var z := Next(hash, src, y, e);
    assert Leads(hash, src, z, [e][1..], z);
    LeadsOn(hash, src, x, d, y, [e], z);
  }

  // After one ack, time-outs alone take the sender to the end: each one is read as the ack of the chunk before it.
  lemma {:induction false} StaleAcks(hash: Hash, src: Source, y: Session) returns (events: seq<Event>, z: Session)
    requires Valid(y.server) && y.client.phase == AwaitChunk && y.client.recv == Header(SEND_FILE, ACK_OK)
    ensures Leads(hash, src, y, events, z)
    ensures z.client.phase == AwaitVerdict && |z.sent| > 0 && z.sent[|z.sent| - 1] == Finish(REQ_NOR)
    ensures z == y.(client := z.client, sent := z.sent)
    decreases |src.contents| - BUF_MAX_LEN * y.client.index
  {
    z := Next(hash, src, y, Expire);
    events := [Expire];
    assert Leads(hash, src, z, events[1..], z);
    if z.client.phase == AwaitChunk {
      var rest;
      rest, z := StaleAcks(hash, src, z);
      events := [Expire] + rest;
      assert events[1..] == rest;
    }
  }

  const FULL: Outcome := Outcome(true, 0)

  lemma ZeroDigestStart(hash: Hash, src: Source) returns (y: Session, events: seq<Event>, z: Session)
    requires src.opens && src.contents != []
    ensures Starts(hash, src, y) && y.once && Leads(hash, src, y, events, z) && Valid(z.server)
    ensures z.server.back == "" && z.server.filemsg.md5 == hash(src.contents)
    ensures z.published == [] && z.client.recv == Header(SEND_FILE, ACK_OK)
    ensures z.client.phase == AwaitChunk
            || (z.client.phase == AwaitVerdict && |z.sent| > 0 && z.sent[|z.sent| - 1] == Finish(REQ_NOR))
  {
    hide Leads, ChunkAt, Overlay;
    var s := Server(NO_BLOCK, "", "", Stdin, Disk(map[], []));
    y := Session(START, [Announcement(src, hash)], s, [], false, true, [], []);
    var n := |ChunkAt(src.contents, 0)|;
    events, z := [], y;
    LeadsNone(hash, src, y);
    var steps := [
      ToServer(0, FULL), ToClient(0), ToServer(1, Outcome(true, n)), ToClient(1), ToServer(1, Outcome(true, -1))];
    LeadsNext(hash, src, y, events, z, steps[0]);
    events, z := events + [steps[0]], Next(hash, src, z, steps[0]);
    LeadsNext(hash, src, y, events, z, steps[1]);
    events, z := events + [steps[1]], Next(hash, src, z, steps[1]);
    assert z.sent[1] == ChunkMessage(src, 0);
    LeadsNext(hash, src, y, events, z, steps[2]);
    events, z := events + [steps[2]], Next(hash, src, z, steps[2]);
    LeadsNext(hash, src, y, events, z, steps[3]);
    events, z := events + [steps[3]], Next(hash, src, z, steps[3]);
    assert z.sent[1] == ChunkMessage(src, 0);
    LeadsNext(hash, src, y, events, z, steps[4]);
    events, z := events + [steps[4]], Next(hash, src, z, steps[4]);
  }

  // The part file is dropped after a failed write, the cleared digest buffer equals the announced digest,
  // and the sender is told ok although nothing was published.
  lemma ZeroDigestRun(hash: Hash, src: Source) returns (y: Session, events: seq<Event>, z: Session)
    requires src.opens && src.contents != [] && hash(src.contents) == NO_DIGEST
    ensures Starts(hash, src, y) && y.once && Leads(hash, src, y, events, z)
    ensures z.client.phase == Stopped(Confirmed) && z.published == []
  {
    hide Leads;
    y, events, z := ZeroDigestStart(hash, src);
    if z.client.phase == AwaitChunk {
      var rest, z' := StaleAcks(hash, src, z);
      LeadsOn(hash, src, y, events, z, rest, z');
      events, z := events + rest, z';
    }
    var finish := ToServer(|z.sent| - 1, FULL);
    LeadsNext(hash, src, y, events, z, finish);
    events, z := events + [finish], Next(hash, src, z, finish);
    var ack := ToClient(|z.replies| - 1);
    LeadsNext(hash, src, y, events, z, ack);
    events, z := events + [ack], Next(hash, src, z, ack);
  }

  // Exactly when every run is safe.
  lemma SafeIff(hash: Hash, src: Source)
    ensures AlwaysSafe(hash, src) <==> !src.opens || src.contents == [] || hash(src.contents) != NO_DIGEST
  {
    if !src.opens || src.contents == [] {
      forall y, events, z | Starts(hash, src, y) && y.once && Leads(hash, src, y, events, z)
        ensures Safe(hash, src, z)
      {
        StaysIdle(hash, src, y, events, z);
      }
    } else if hash(src.contents) != NO_DIGEST {
      forall y, events, z | Starts(hash, src, y) && y.once && Leads(hash, src, y, events, z)
        ensures Safe(hash, src, z)
      {
        SafeRun(hash, src, y, events, z);
      }
    } else {
      var y, events, z := ZeroDigestRun(hash, src);
      assert !Safe(hash, src, z);
    }
  }

  // ----- What the published file holds

  // Without a part file left over, the descriptor always stands at the end of its file.
  ghost predicate AtEnd(src: Source, y: Session) {
    && Valid(y.server)
    && (!y.announced ==> PartOf(src) !in y.server.disk.names && y.server.fd == Stdin)
    && (y.announced && y.published == [] && y.server.fd.Part? ==>
          y.server.fd.at == |y.server.disk.files[y.server.fd.inode]|)
    && (y.published != [] ==> y.published[0].at == |y.published[0].content|)
  }

  lemma AnnouncementAtEnd(hash: Hash, src: Source, y: Session, o: Outcome)
    requires Inv(hash, src, y) && AtEnd(src, y) && src.opens && !y.announced
    ensures AtEnd(src, ServerStep(hash, y, y.sent[0], o))
  {
    AnnouncementKeeps(hash, src, y, o);
    var z := ServerStep(hash, y, y.sent[0], o);
    assert z.server.back == PartOf(src);
  }

  lemma ChunkAtEnd(hash: Hash, src: Source, y: Session, m: Message, o: Outcome)
    requires Inv(hash, src, y) && AtEnd(src, y) && y.announced
    requires m.Chunk? && m.kind == REQ_NORE && Legal(y.server, m, o)
    ensures AtEnd(src, ServerStep(hash, y, m, o))
  {
    ReceivedValid(y.server, m.bytes, o.written);
  }

  lemma FinishAtEnd(hash: Hash, src: Source, y: Session, o: Outcome)
    requires Inv(hash, src, y) && AtEnd(src, y) && y.announced && !Closed(y)
    requires hash(src.contents) != NO_DIGEST
    ensures AtEnd(src, ServerStep(hash, y, Finish(REQ_NOR), o))
  {
    FinishKeeps(hash, src, y, o);
  }

  lemma StaysAtEnd(hash: Hash, src: Source, y: Session, e: Event)
    requires Inv(hash, src, y) && AtEnd(src, y) && Possible(y, e)
    requires src.opens && hash(src.contents) != NO_DIGEST
    ensures AtEnd(src, Next(hash, src, y, e))
  {
    Keeps(hash, src, y, e);
    match e
    case ToServer(i, o) =>
      if i == 0 {
        AnnouncementAtEnd(hash, src, y, o);
      } else if y.sent[i].Chunk? {
        ChunkAtEnd(hash, src, y, y.sent[i], o);
      } else {
        FinishAtEnd(hash, src, y, o);
      }
    case _ =>
  }

  lemma {:induction false} AlwaysAtEnd(hash: Hash, src: Source, y: Session, events: seq<Event>, z: Session)
    requires Inv(hash, src, y) && AtEnd(src, y) && Leads(hash, src, y, events, z)
    requires src.opens && hash(src.contents) != NO_DIGEST
    ensures AtEnd(src, z)
    decreases |events|
  {
    hide Inv, AtEnd, Next, Possible;
    if events != [] {
      StaysAtEnd(hash, src, y, events[0]);
      Keeps(hash, src, y, events[0]);
      AlwaysAtEnd(hash, src, Next(hash, src, y, events[0]), events[1..], z);
    }
  }

  // ----- What else is on the disk

  // The disk is as d was, but for the part file and what it is published as.
  ghost predicate Elsewhere(src: Source, d: Disk, y: Session) {
    var e := y.server.disk;
    && Valid(y.server) && (!y.announced ==> e == d && y.published == [])
    && |d.files| <= |e.files|
    && (forall n | n != PartOf(src) && n != PathOf(src) :: SameName(d, e, n))
    && (forall i | 0 <= i < |d.files| && i != PartInode(d, PartOf(src)) :: e.files[i] == d.files[i])
    && (y.server.fd.Part? ==> y.server.fd.inode == PartInode(d, PartOf(src)))
    && (y.published != [] ==>
          PartOf(src) !in e.names && PathOf(src) in e.names && e.names[PathOf(src)] == PartInode(d, PartOf(src)))
  }

  lemma AnnouncementElsewhere(hash: Hash, src: Source, d: Disk, y: Session, o: Outcome)
    requires Inv(hash, src, y) && Elsewhere(src, d, y) && src.opens && !y.announced
    ensures Elsewhere(src, d, ServerStep(hash, y, y.sent[0], o))
  {
    hide Overlay;
    AnnouncementKeeps(hash, src, y, o);
    var z := ServerStep(hash, y, y.sent[0], o);
    assert z.server.back == PartOf(src);
  }

  lemma ChunkElsewhere(hash: Hash, src: Source, d: Disk, y: Session, m: Message, o: Outcome)
    requires Inv(hash, src, y) && Elsewhere(src, d, y) && y.announced
    requires m.Chunk? && m.kind == REQ_NORE && Legal(y.server, m, o)
    ensures Elsewhere(src, d, ServerStep(hash, y, m, o))
  {
    hide Overlay;
    ReceivedValid(y.server, m.bytes, o.written);
    ReceivedNames(y.server, m.bytes, o.written);
    var z := ServerStep(hash, y, m, o);
    assert z.published == y.published;
    assert |z.server.disk.files| == |y.server.disk.files|;
    NamesKept(src, d, y.server.disk, z.server.disk);
  }

  lemma NamesKept(src: Source, d: Disk, e: Disk, e': Disk)
    requires forall n | n != PartOf(src) && n != PathOf(src) :: SameName(d, e, n)
    requires forall n | n != PartOf(src) && n != PathOf(src) :: SameName(e, e', n)
    ensures forall n | n != PartOf(src) && n != PathOf(src) :: SameName(d, e', n)
  {
    forall n | n != PartOf(src) && n != PathOf(src)
      ensures SameName(d, e', n)
    {
      assert SameName(d, e, n) && SameName(e, e', n);
    }
  }

  lemma FinishElsewhere(hash: Hash, src: Source, d: Disk, y: Session, o: Outcome)
    requires Inv(hash, src, y) && Elsewhere(src, d, y) && y.announced && !Closed(y)
    requires hash(src.contents) != NO_DIGEST
    ensures Elsewhere(src, d, ServerStep(hash, y, Finish(REQ_NOR), o))
  {
    hide Overlay;
    FinishKeeps(hash, src, y, o);
    var z := ServerStep(hash, y, Finish(REQ_NOR), o);
    if Over(hash, src, y) {
      assert z.published == y.published && z.server.disk == y.server.disk;
    } else if Matches(hash, y.server) {
      NamesKept(src, d, y.server.disk, z.server.disk);
    } else {
      assert z.published == y.published && z.server.disk == y.server.disk;
    }
  }

  lemma StaysElsewhere(hash: Hash, src: Source, d: Disk, y: Session, e: Event)
    requires Inv(hash, src, y) && Elsewhere(src, d, y) && Possible(y, e)
    requires src.opens && hash(src.contents) != NO_DIGEST
    ensures Elsewhere(src, d, Next(hash, src, y, e))
  {
    hide ServerStep;
    match e
    case ToServer(i, o) =>
      if i == 0 {
        AnnouncementElsewhere(hash, src, d, y, o);
      } else if y.sent[i].Chunk? {
        ChunkElsewhere(hash, src, d, y, y.sent[i], o);
      } else {
        FinishElsewhere(hash, src, d, y, o);
      }
    case _ =>
  }

  lemma {:induction false} AlwaysElsewhere(
    hash: Hash, src: Source, d: Disk, y: Session, events: seq<Event>, z: Session)
    requires Inv(hash, src, y) && Elsewhere(src, d, y) && Leads(hash, src, y, events, z)
    requires src.opens && hash(src.contents) != NO_DIGEST
    ensures Elsewhere(src, d, z)
    decreases |events|
  {
    hide Inv, Elsewhere, Next, Possible;
    if events != [] {
      StaysElsewhere(hash, src, d, y, events[0]);
      Keeps(hash, src, y, events[0]);
      AlwaysElsewhere(hash, src, d, Next(hash, src, y, events[0]), events[1..], z);
    }
  }

  lemma PublishedMoved(hash: Hash, src: Source, y: Session, events: seq<Event>, z: Session)
    requires Starts(hash, src, y) && y.once && Leads(hash, src, y, events, z) && z.published != []
    requires src.opens && hash(src.contents) != NO_DIGEST
    ensures Moved(y.server.disk, z.server.disk, PartOf(src), PathOf(src))
  {
    assert Inv(hash, src, y) && Elsewhere(src, y.server.disk, y);
    AlwaysElsewhere(hash, src, y.server.disk, y, events, z);
  }

  // A confirmed file holds the source, and after it the chunks that were delivered after the publication. The part
  // file's name is gone, and nothing else on the disk has changed.
  lemma ConfirmedContents(hash: Hash, src: Source, y: Session, events: seq<Event>, z: Session)
    requires Starts(hash, src, y) && y.once && Leads(hash, src, y, events, z)
    requires src.opens && hash(src.contents) != NO_DIGEST && NoCollision(hash, src.contents)
    requires z.client.phase == Stopped(Confirmed)
    ensures |z.published| == 1 && z.published[0].content == src.contents
    ensures Valid(z.server) && Moved(y.server.disk, z.server.disk, PartOf(src), PathOf(src))
    ensures PartOf(src) !in y.server.disk.names ==>
      z.server.disk.files[z.server.disk.names[PathOf(src)]] == src.contents + z.late
  {
    SafeRun(hash, src, y, events, z);
    PublishedMoved(hash, src, y, events, z);
    if PartOf(src) !in y.server.disk.names {
      assert Inv(hash, src, y) && AtEnd(src, y);
      AlwaysAtEnd(hash, src, y, events, z);
      OverlayEnd(src.contents, z.late);
    }
  }
}
