// Chunks that are delivered after the publication: the descriptor is still open, and they go to the published file.
module UdpLate {

  import opened TransferFiles
  import opened UdpServer
  import opened UdpClient
  import opened UdpSession
  import opened UdpSafety
  import opened UdpLossless

  // The file under its name is the source.
  ghost predicate Intact(src: Source, z: Session) {
    && Valid(z.server) && PathOf(src) in z.server.disk.names
    && z.server.disk.files[z.server.disk.names[PathOf(src)]] == src.contents
  }

  lemma OverlayKeepsIff(c: File, at: nat, d: File)
    requires at <= |c|
    ensures Overlay(c, at, d) == c <==> at + |d| <= |c| && c[at..at + |d|] == d
  {
    hide Overlay;
    var r := Overlay(c, at, d);
    if r == c {
      assert forall i | 0 <= i < |d| :: d[i] == r[at + i];
    } else if at + |d| <= |c| && c[at..at + |d|] == d {
      assert forall i | at <= i < at + |d| :: c[i] == c[at..at + |d|][i - at];
    }
  }

  // A confirmed file is the source exactly when the late bytes are those that stood there already; exactly when
  // there are none, if no part file was left over.
  lemma IntactRunIff(hash: Hash, src: Source, y: Session, events: seq<Event>, z: Session)
    requires Starts(hash, src, y) && y.once && Leads(hash, src, y, events, z)
    requires src.opens && hash(src.contents) != NO_DIGEST && NoCollision(hash, src.contents)
    requires z.client.phase == Stopped(Confirmed)
    ensures |z.published| == 1
    ensures
      var at := z.published[0].at;
      Intact(src, z) <==> at + |z.late| <= |src.contents| && src.contents[at..at + |z.late|] == z.late
    ensures PartOf(src) !in y.server.disk.names ==> (Intact(src, z) <==> z.late == [])
  {
    SafeRun(hash, src, y, events, z);
    ConfirmedContents(hash, src, y, events, z);
    OverlayKeepsIff(src.contents, z.published[0].at, z.late);
  }

  // ----- A run for every source

  // FINISH publishes the source, and the first chunk is delivered once more.
  lemma FinishThenChunk(hash: Hash, src: Source, y: Session) returns (events: seq<Event>, z: Session)
    requires Sending(hash, src, Disk(map[], []), ChunkCount(src.contents), y)
    ensures Leads(hash, src, y, events, z) && z.client.phase == Stopped(Confirmed)
    ensures Valid(z.server) && PathOf(src) in z.server.disk.names
    ensures z.server.disk.files[z.server.disk.names[PathOf(src)]] == src.contents + ChunkAt(src.contents, 0)
  {
    hide Leads, Overlay, ChunkAt, ChunkCount, Prefix;
    var chunk := ChunkAt(src.contents, 0);
    PrefixNext(src.contents, ChunkCount(src.contents));
    OverlayEmpty(src.contents);
    OverlayEnd(src.contents, chunk);
    assert chunk[..|chunk|] == chunk;
    var finish, late, told :=
      ToServer(|y.sent| - 1, FULL), ToServer(1, Outcome(true, |chunk|)), ToClient(|y.replies|);
    LeadsNone(hash, src, y);
    LeadsNext(hash, src, y, [], y, finish);
    events, z := [] + [finish], Next(hash, src, y, finish);
    LeadsNext(hash, src, y, events, z, late);
    events, z := events + [late], Next(hash, src, z, late);
    LeadsNext(hash, src, y, events, z, told);
    events, z := events + [told], Next(hash, src, z, told);
  }

  // The sender is told ok, and the published file holds the source and its first chunk once more.
  lemma LateChunkRun(hash: Hash, src: Source) returns (y: Session, events: seq<Event>, z: Session)
    requires src.opens && src.contents != []
    ensures Starts(hash, src, y) && y.once && PartOf(src) !in y.server.disk.names
    ensures Leads(hash, src, y, events, z) && z.client.phase == Stopped(Confirmed)
    ensures Valid(z.server) && PathOf(src) in z.server.disk.names
    ensures z.server.disk.files[z.server.disk.names[PathOf(src)]] == src.contents + ChunkAt(src.contents, 0)
  {
    hide Leads, Sending, Round;
    var s := Server(NO_BLOCK, "", "", Stdin, Disk(map[], []));
    var n := ChunkCount(src.contents);
    y := Begin(hash, src, s);
    z := Rounds(hash, src, y, n + 1);
    events := RoundsLead(hash, src, y, n + 1);
    AfterChunks(hash, src, s, n);
    var more, x := FinishThenChunk(hash, src, z);
    LeadsOn(hash, src, y, events, z, more, x);
    events, z := events + more, x;
  }

  // Every confirmed run without a leftover part file leaves the source under its name.
  ghost predicate AlwaysIntact(hash: Hash, src: Source) {
    forall y, events, z |
      && Starts(hash, src, y) && y.once && PartOf(src) !in y.server.disk.names
      && Leads(hash, src, y, events, z) && z.client.phase == Stopped(Confirmed)
      :: Intact(src, z)
  }

  // It does exactly for the sources that are never confirmed.
  lemma AlwaysIntactIff(hash: Hash, src: Source)
    ensures AlwaysIntact(hash, src) <==> !src.opens || src.contents == []
  {
    if !src.opens || src.contents == [] {
      forall y, events, z | Starts(hash, src, y) && Leads(hash, src, y, events, z)
        ensures z.client.phase != Stopped(Confirmed)
      {
        StaysIdle(hash, src, y, events, z);
      }
    } else {
      var y, events, z := LateChunkRun(hash, src);
      assert ChunkAt(src.contents, 0) != [];
      assert !Intact(src, z);
    }
  }
}
