// The two path buffers of filesend/udpfilesend/udp-server.c over any sequence of datagrams.
module UdpPaths {

  import opened TransferFiles
  import opened UdpServer
  import opened UdpClient
  import opened UdpSession
  import opened UdpLossless

  datatype Input = Input(message: Message, outcome: Outcome)

  predicate Announces(d: Input) {
    d.message.Announce? && d.message.kind == REQ_NOR
  }

  // FINISH, or a chunk whose write fails.
  predicate Clears(d: Input) {
    || d.message == Finish(REQ_NOR)
    || (d.message.Chunk? && d.message.kind == REQ_NORE && d.outcome.written == -1)
  }

  // The server z after these datagrams.
  ghost predicate Takes(hash: Hash, s: Server, ds: seq<Input>, z: Server)
    decreases |ds|
  {
    if ds == [] then z == s
    else
      && Valid(s) && Legal(s, ds[0].message, ds[0].outcome)
      && Takes(hash, Handled(hash, s, ds[0].message, ds[0].outcome).0, ds[1..], z)
  }

  // An announcement that nothing has cleared.
  ghost predicate Dirty(ds: seq<Input>) {
    exists i | 0 <= i < |ds| :: Announces(ds[i]) && forall j | i < j < |ds| :: !Clears(ds[j])
  }

  ghost predicate Empty(s: Server) {
    s.path == "" && s.back == ""
  }

  ghost predicate Filled(s: Server) {
    s.path != "" && s.back != ""
  }

  // A filled pair of buffers stays filled until something clears it.
  lemma {:induction false} PathsAre(hash: Hash, s: Server, ds: seq<Input>, z: Server)
    requires (Empty(s) || Filled(s)) && Takes(hash, s, ds, z)
    ensures Empty(z) <==> !Dirty(ds) && (Empty(s) || exists j | 0 <= j < |ds| :: Clears(ds[j]))
    ensures Filled(z) <==> !Empty(z)
    decreases |ds|
  {
    if ds != [] {
      var s' := Handled(hash, s, ds[0].message, ds[0].outcome).0;
      PathsAre(hash, s', ds[1..], z);
      FirstInput(ds);
    }
  }

  lemma FirstInput(ds: seq<Input>)
    requires ds != []
    ensures
      var later := exists j | 0 <= j < |ds| - 1 :: Clears(ds[1..][j]);
      && ((exists j | 0 <= j < |ds| :: Clears(ds[j])) <==> Clears(ds[0]) || later)
      && (Dirty(ds) <==> Dirty(ds[1..]) || (Announces(ds[0]) && !later))
  {
    var rest := ds[1..];
    assert forall j | 1 <= j < |ds| :: ds[j] == rest[j - 1];
    if Dirty(rest) {
      var i :| 0 <= i < |rest| && Announces(rest[i]) && forall j | i < j < |rest| :: !Clears(rest[j]);
      assert Announces(ds[i + 1]);
    }
    if exists j | 0 <= j < |rest| :: Clears(rest[j]) {
      var j :| 0 <= j < |rest| && Clears(rest[j]);
      assert Clears(ds[j + 1]);
    }
  }

  // From the start of the program, an announcement builds exactly the prefix, the name and the suffix
  // if and only if every earlier announcement has been cleared since.
  lemma AnnouncementBuilds(hash: Hash, s: Server, ds: seq<Input>, z: Server, block: FileBlock, opens: bool)
    requires Fresh(s) && Takes(hash, s, ds, z)
    ensures
      var z' := Announced(z, block, opens);
      z'.path == "/mnt/" + block.name && z'.back == "/mnt/" + block.name + ".filepart" <==> !Dirty(ds)
  {
    PathsAre(hash, s, ds, z);
  }

  lemma AnnouncedPaths(hash: Hash, src: Source, s: Server, opens: bool)
    requires Valid(s)
    ensures
      var z := Announced(s, Announcement(src, hash).block, opens);
      Valid(z) && z.path == s.path + PathOf(src) && z.back == s.back + PartOf(src)
      && z.filemsg == Announcement(src, hash).block
  {
    var z := Announced(s, Announcement(src, hash).block, opens);
    assert z.path == s.path + PathOf(src);
    assert z.back == s.back + PartOf(src);
  }

  // An empty source ends the sender without a FINISH: the next file, though nothing is lost,
  // goes to both names run together.
  lemma AfterEmptySource(hash: Hash, empty: Source, src: Source, s: Server)
    requires Ready(s) && empty.opens && empty.contents == []
    ensures
      var e := Round(hash, empty, Begin(hash, empty, s));
      var e' := Round(hash, src, Begin(hash, src, e.server));
      && e.client.phase == Stopped(NothingToSend) && e.sent == [Announcement(empty, hash)]
      && e'.server.path == PathOf(empty) + PathOf(src) && e'.server.back == PartOf(empty) + PartOf(src)
  {
    hide Valid, Announced;
    var e := Round(hash, empty, Begin(hash, empty, s));
    AnnouncedPaths(hash, empty, s, true);
    AnnouncedPaths(hash, src, e.server, true);
    assert "" + PathOf(empty) == PathOf(empty) && "" + PartOf(empty) == PartOf(empty);
  }

  predicate Opens(d: Input) {
    Announces(d) && d.outcome.opens
  }

  lemma {:induction false} StaysBad(hash: Hash, s: Server, ds: seq<Input>, z: Server)
    requires s.fd.Bad? && Takes(hash, s, ds, z) && forall i | 0 <= i < |ds| :: !Opens(ds[i])
    ensures z.fd.Bad? && z.disk.files == s.disk.files
    ensures Valid(s) && s.back == "" && (forall i | 0 <= i < |ds| :: !Announces(ds[i])) ==> z.disk == s.disk
    decreases |ds|
  {
    if ds != [] {
      var rest := ds[1..];
      assert forall i | 0 <= i < |rest| :: rest[i] == ds[i + 1];
      assert !Opens(ds[0]);
      var s' := Handled(hash, s, ds[0].message, ds[0].outcome).0;
      assert s'.fd.Bad? && s'.disk.files == s.disk.files;
      StaysBad(hash, s', rest, z);
      if s.back == "" && forall i | 0 <= i < |ds| :: !Announces(ds[i]) {
        assert !Announces(ds[0]);
        assert s'.disk == s.disk && s'.back == "";
        if rest != [] {
          assert Valid(s');
        }
      }
    }
  }

  // A write that fails, or an announcement whose part file does not open.
  predicate Fails(d: Input) {
    || (d.message.Chunk? && d.message.kind == REQ_NORE && d.outcome.written == -1)
    || (Announces(d) && !d.outcome.opens)
  }

  // After a failure every chunk is refused and no file changes, until an announcement opens a part file again;
  // after a failed write and without an announcement, nothing at all on the disk does.
  lemma AfterFailure(hash: Hash, s: Server, first: Input, ds: seq<Input>, z: Server, later: Input)
    requires Valid(s) && Legal(s, first.message, first.outcome) && Fails(first)
    requires Takes(hash, Handled(hash, s, first.message, first.outcome).0, ds, z)
    requires forall i | 0 <= i < |ds| :: !Opens(ds[i])
    ensures z.fd.Bad? && z.disk.files == s.disk.files
    ensures first.message.Chunk? && (forall i | 0 <= i < |ds| :: !Announces(ds[i])) ==> z.disk == s.disk
    ensures
      Valid(z) && Legal(z, later.message, later.outcome) && later.message.Chunk? && later.message.kind == REQ_NORE ==>
        var (s', replies) := Handled(hash, z, later.message, later.outcome);
        replies == [Header(2, 3)] && s'.disk == z.disk
  {
    StaysBad(hash, Handled(hash, s, first.message, first.outcome).0, ds, z);
  }
}
