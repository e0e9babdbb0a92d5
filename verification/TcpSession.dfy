// Both ends of filesend/tcpfilesend together: every interleaving, and every cutting of the byte stream.
module TcpSession {

  import opened Wrappers
  import opened Md5Words
  import opened Md5Bytes
  import opened TransferFiles
  import opened TcpWire
  import opened TcpServer
  import opened TcpClient

  // The file to send, the server's disk, whether the part file opens, and whether the announcement arrives in one
  // segment.
  datatype Setup = Setup(hash: Hash, src: Source, disk: Disk, opens: bool, whole: bool)

  datatype Phase = AwaitAck | Sending(at: nat) | AwaitVerdict | Stopped(result: Result)

  // The client; the bytes on their way to the server and the replies on their way back; the announcement as the
  // server has read it, how many of its bytes that took, and the segments received since.
  datatype Ends = Ends(
    client: Phase, up: seq<uint8>, down: seq<seq<uint8>>, block: Option<FileBlock>, cut: nat, results: seq<Recv>)

  datatype Event = Announce(n: nat) | Ack | Send | Eof | Receive(n: nat) | Verdict

  // The announcement is in flight.
  function Begin(u: Setup): Ends
    requires Fits(u.src.name)
  {
    Ends(AwaitAck, Announcement(u.src, u.hash), [], None, 0, [])
  }

  ghost predicate Serving(u: Setup, y: Ends) {
    ValidDisk(u.disk) && y.block.Some? && y.block.value.length < WORDS
  }

  // What the server has made of the announcement and the segments so far.
  function ServiceOf(u: Setup, y: Ends): Service
    requires Serving(u, y)
  {
    var b := y.block.value;
    Serve(u.hash, u.disk, PICTUREPATH + b.name, PICTUREPATH + b.name + FILEPART, b, u.opens, y.results)
  }

  ghost predicate Enabled(u: Setup, y: Ends, e: Event) {
    match e
    case Announce(n) => y.block.None? && 0 < n <= |y.up| && n <= MAXLINE && (u.whole ==> n == |y.up|)
    case Ack => y.client.AwaitAck? && y.down != [] && |y.down[0]| == 8
    case Send => y.client.Sending? && y.client.at < |u.src.contents|
    case Eof => y.client.Sending? && y.client.at >= |u.src.contents|
    case Receive(n) => Serving(u, y) && ServiceOf(u, y).Waiting? && 0 < n <= |y.up| && n <= MAXLINE
    case Verdict => y.client.AwaitVerdict? && y.down != [] && |y.down[0]| == 8
  }

  // The cleared buffer after a recv.
  function Buffer(bytes: seq<uint8>): (b: seq<uint8>)
    requires |bytes| <= MAXLINE
    ensures |b| == MAXLINE
  {
    bytes + Zeros(MAXLINE - |bytes|)
  }

  function ClientAfter(u: Setup, header: Header): Phase {
    if header != Header(SEND_FILEMSG_REQ, ACK_OK) then Stopped(Refused)
    else if !u.src.opens then Stopped(Unopened)
    else Sending(0)
  }

  const ACK: seq<uint8> := [0x01, 0, 0x01, 0, 0, 0, 0, 0]

  function Next(u: Setup, y: Ends, e: Event): Ends
    requires Enabled(u, y, e)
  {
    match e
    case Announce(n) =>
      var buf, z := Buffer(y.up[..n]), y.(up := y.up[n..]);
      if TcpWire.HeaderOf(buf) == Header(SEND_FILEMSG_REQ, REQ_NOR) then
        z.(down := y.down + [buf[..2] + [ACK_OK, 0, 0, 0, 0, 0]], block := Some(ParseBlock(buf[8..])), cut := n)
      else z
    case Ack => y.(client := ClientAfter(u, HeaderIn(Segment(y.down[0]))), down := y.down[1..])
    case Send =>
      var at := y.client.at;
      var to := if |u.src.contents| - at < BUF_MAX_LEN then |u.src.contents| else at + BUF_MAX_LEN;
      y.(client := Sending(to), up := y.up + u.src.contents[at..to])
    case Eof => y.(client := AwaitVerdict)
    case Receive(n) =>
      var z := y.(up := y.up[n..], results := y.results + [Segment(y.up[..n])]);
      var service := ServiceOf(u, z);
      if service.Served? then z.(down := z.down + [TcpServer.Verdict(service.ok)]) else z
    case Verdict =>
      var told := HeaderIn(Segment(y.down[0])) == Header(SEND_FINISH, ACK_OK);
      y.(client := Stopped(if told then Confirmed else Denied), down := y.down[1..])
  }

  ghost predicate CanStep(u: Setup, y: Ends) {
    exists e :: Enabled(u, y, e)
  }

  ghost predicate Leads(u: Setup, y: Ends, events: seq<Event>, z: Ends)
    decreases |events|
  {
    if events == [] then z == y
    else Enabled(u, y, events[0]) && Leads(u, Next(u, y, events[0]), events[1..], z)
  }

  lemma LeadsCons(u: Setup, y: Ends, e: Event, events: seq<Event>, z: Ends)
    requires Enabled(u, y, e) && Leads(u, Next(u, y, e), events, z)
    ensures Leads(u, y, [e] + events, z)
  {
    hide Enabled, Next;
    assert ([e] + events)[1..] == events;
  }

  ghost predicate Reachable(u: Setup, z: Ends)
    requires Fits(u.src.name)
  {
    exists events :: Leads(u, Begin(u), events, z)
  }

  // A source that opens, with a name that fits, and whose length the int count and the unsigned length both hold.
  ghost predicate Sound(u: Setup) {
    Fits(u.src.name) && u.src.opens && ValidDisk(u.disk) && |u.src.contents| + MAXLINE <= WORDS
  }

  // ----- The first segment

  function Announced(u: Setup): FileBlock {
    FileBlock(u.src.name, u.hash(u.src.contents), |u.src.contents|)
  }

  // The block that the server reads from the first n bytes of the announcement.
  function FirstBlock(u: Setup, n: nat): FileBlock
    requires Sound(u) && 0 < n <= 92
  {
    ParseBlock(Cut(BlockBytes(Announced(u)), if n < 8 then 0 else n - 8))
  }

  lemma FirstRead(u: Setup, n: nat)
    requires Sound(u) && 0 < n <= 92
    ensures
      var buf := Buffer(Announcement(u.src, u.hash)[..n]);
      && TcpWire.HeaderOf(buf) == Header(SEND_FILEMSG_REQ, REQ_NOR) && buf[..2] == [0x01, 0]
      && ParseBlock(buf[8..]) == FirstBlock(u, n)
  {
    hide ParseBlock, BlockBytes, Announcement, Cut, HeaderOf;
    var a, b, k := Announcement(u.src, u.hash), BlockBytes(Announced(u)), if n < 8 then 0 else n - 8;
    var buf := Buffer(a[..n]);
    AnnouncementStarts(u.src, u.hash);
    FirstHeader(buf);
    AnnouncementBlock(u);
    BufferCut(a, b, n);
    ParseFirst(buf[8..]);
    ParseFirst(Cut(b, k));
    assert Cut(b, k)[..84] == Cut(b, k);
  }

  lemma FirstHeader(buf: seq<uint8>)
    requires |buf| >= 4 && buf[0] == 1 && buf[1] == 0 && buf[2] == 0 && buf[3] == 0
    ensures TcpWire.HeaderOf(buf) == Header(SEND_FILEMSG_REQ, REQ_NOR)
  {
    hide Gather;
    GatherLow(1);
    GatherLow(0);
  }

  lemma GatherLow(b: uint8)
    ensures Gather(b, 0, 0, 0) == b
  {
  }

  lemma AnnouncementBlock(u: Setup)
    requires Sound(u)
    ensures Announcement(u.src, u.hash)[8..] == BlockBytes(Announced(u))
  {
    hide BlockBytes;
  }

  lemma BufferCut(a: seq<uint8>, b: seq<uint8>, n: nat)
    requires |a| == 92 && a[8..] == b && n <= 92
    ensures Buffer(a[..n])[8..][..84] == Cut(b, if n < 8 then 0 else n - 8)
  {
    var l, r := Buffer(a[..n])[8..][..84], Cut(b, if n < 8 then 0 else n - 8);
    forall i | 0 <= i < 84
      ensures l[i] == r[i]
    {
      assert b[i] == a[i + 8];
    }
  }

  lemma AnnouncementStarts(src: Source, hash: Hash)
    requires Fits(src.name)
    ensures Announcement(src, hash)[..4] == [1, 0, 0, 0]
  {
    hide BlockBytes;
    var b := Announcement(src, hash);
    assert b[0] == 1 && b[1] == 0 && b[2] == 0 && b[3] == 0;
  }

  // Every first segment, down to one byte, is taken for an announcement, and acknowledged; it is the announced one
  // exactly when nothing of the file block is missing but zeros.
  lemma FirstSegmentIff(u: Setup, n: nat)
    requires Sound(u) && 0 < n <= 92
    ensures
      var a := Announcement(u.src, u.hash);
      var buf := Buffer(a[..n]);
      && TcpWire.HeaderOf(buf) == Header(SEND_FILEMSG_REQ, REQ_NOR)
      && (ParseBlock(buf[8..]) == Announced(u) <==> OnlyZeros(a, if n < 8 then 8 else n))
  {
    hide ParseBlock, BlockBytes, Cut, Buffer, HeaderOf, Announcement;
    FirstRead(u, n);
    AnnouncementBlock(u);
    var k := if n < 8 then 0 else n - 8;
    CutBlockIff(Announced(u), k);
    TailZeros(Announcement(u.src, u.hash), k);
  }

  lemma TailZeros(a: seq<uint8>, k: nat)
    requires |a| >= 8
    ensures OnlyZeros(a[8..], k) <==> OnlyZeros(a, k + 8)
  {
    var b := a[8..];
    if OnlyZeros(b, k) {
      forall i | k + 8 <= i < |a|
        ensures a[i] == 0
      {
        assert a[i] == b[i - 8];
      }
    }
  }

  // ----- The invariant

  // How much of the source has been sent.
  function SentBytes(u: Setup, p: Phase): nat {
    match p
    case AwaitAck => 0
    case Sending(at) => at
    case _ => |u.src.contents|
  }

  ghost predicate Segments(results: seq<Recv>) {
    ValidResults(results) && forall i | 0 <= i < |results| :: results[i].Segment?
  }

  // The replies in flight.
  function Replies(p: Phase, service: Service): seq<seq<uint8>> {
    (if p.AwaitAck? then [ACK] else [])
    + (if service.Served? && !p.Stopped? then [TcpServer.Verdict(service.ok)] else [])
  }

  // Once the announcement is read: every other byte sent is received or in flight, in order, what was left of the
  // announcement first.
  ghost predicate Transferring(u: Setup, y: Ends)
    requires Sound(u)
  {
    && Serving(u, y) && 0 < y.cut <= 92 && (u.whole ==> y.cut == 92)
    && y.block.value == FirstBlock(u, y.cut)
    && Segments(y.results)
    && SentBytes(u, y.client) <= |u.src.contents|
    && Stream(y.results) + y.up
         == Announcement(u.src, u.hash)[y.cut..] + u.src.contents[..SentBytes(u, y.client)]
    && var service := ServiceOf(u, y);
       && y.down == Replies(y.client, service)
       && (y.client.Stopped? ==>
             service.Served? && y.client.result == if service.ok then Confirmed else Denied)
  }

  ghost predicate Inv(u: Setup, y: Ends)
    requires Sound(u)
  {
    if y.block.None? then y == Begin(u) else Transferring(u, y)
  }

  lemma AnnounceKeeps(u: Setup, n: nat)
    requires Sound(u) && Enabled(u, Begin(u), Announce(n))
    ensures Inv(u, Next(u, Begin(u), Announce(n))) && Next(u, Begin(u), Announce(n)).cut == n
  {
    hide Announcement, ParseBlock, Serve, HeaderIn, HeaderBytes, HeaderOf, FirstBlock, Buffer;
    var z := Next(u, Begin(u), Announce(n));
    var buf := Buffer(Announcement(u.src, u.hash)[..n]);
    FirstRead(u, n);
    ShorterLength(u, n);
    ServedLater(u, z);
    assert buf[..2] + [ACK_OK, 0, 0, 0, 0, 0] == ACK;
    assert z.down == Replies(z.client, ServiceOf(u, z));
    assert Stream(z.results) + z.up == Announcement(u.src, u.hash)[n..] + u.src.contents[..0];
  }

  lemma ShorterLength(u: Setup, n: nat)
    requires Sound(u) && 0 < n <= 92
    ensures FirstBlock(u, n).length <= |u.src.contents|
  {
    CutLength(Announced(u), if n < 8 then 0 else n - 8);
  }

  lemma WholeBlock(u: Setup)
    requires Sound(u)
    ensures FirstBlock(u, 92) == Announced(u)
  {
    hide BlockBytes, Cut, ParseBlock;
    CutBlockIff(Announced(u), 84);
  }

  lemma ServedLater(u: Setup, y: Ends)
    requires Serving(u, y) && y.results == []
    ensures ServiceOf(u, y).Waiting?
  {
    hide WithPart, Judged;
  }

  lemma AckBytes()
    ensures ACK == HeaderBytes(Header(SEND_FILEMSG_REQ, ACK_OK), 0)
  {
  }

  lemma AckRead()
    ensures HeaderIn(Segment(ACK)) == Header(SEND_FILEMSG_REQ, ACK_OK)
  {
    hide HeaderIn, HeaderBytes;
    AckBytes();
    ReplyRead(SEND_FILEMSG_REQ, ACK_OK);
  }

  lemma SegmentsSnoc(results: seq<Recv>, bytes: seq<uint8>)
    requires Segments(results) && 0 < |bytes| <= MAXLINE
    ensures
      var more := results + [Segment(bytes)];
      Segments(more) && Stream(more) == Stream(results) + bytes
  {
    hide Stream;
    var more := results + [Segment(bytes)];
    assert more[..|results|] == results && more[..|results| + 1] == more;
    StreamSnoc(more, |results|);
  }

  lemma Regroup(s: seq<uint8>, up: seq<uint8>, n: nat)
    requires n <= |up|
    ensures (s + up[..n]) + up[n..] == s + up
  {
  }

  lemma ReceiveKeeps(u: Setup, y: Ends, n: nat)
    requires Sound(u) && Transferring(u, y) && Enabled(u, y, Receive(n))
    ensures Transferring(u, Next(u, y, Receive(n)))
    ensures |Stream(Next(u, y, Receive(n)).results)| == |Stream(y.results)| + n
  {
    hide Serve, Stream, Announcement, FirstBlock, Segments;
    SegmentsSnoc(y.results, y.up[..n]);
    Regroup(Stream(y.results), y.up, n);
    StoppedNotWaiting(u, y);
  }

  lemma StoppedNotWaiting(u: Setup, y: Ends)
    requires Sound(u) && Transferring(u, y) && ServiceOf(u, y).Waiting?
    ensures !y.client.Stopped?
  {
  }

  lemma Extended(s: seq<uint8>, up: seq<uint8>, a: seq<uint8>, f: File, at: nat, to: nat)
    requires at <= to <= |f| && s + up == a + f[..at]
    ensures s + (up + f[at..to]) == a + f[..to]
  {
    assert f[..to] == f[..at] + f[at..to];
    assert s + (up + f[at..to]) == (s + up) + f[at..to];
  }

  lemma SendKeeps(u: Setup, y: Ends)
    requires Sound(u) && Transferring(u, y) && Enabled(u, y, Send)
    ensures Transferring(u, Next(u, y, Send))
  {
    hide Serve, Stream, Announcement, FirstBlock, Segments;
    var z := Next(u, y, Send);
    assert ServiceOf(u, z) == ServiceOf(u, y);
    var rest := Announcement(u.src, u.hash)[y.cut..];
    Extended(Stream(y.results), y.up, rest, u.src.contents, y.client.at, z.client.at);
  }

  lemma ClientKeeps(u: Setup, y: Ends, e: Event)
    requires Sound(u) && Transferring(u, y) && Enabled(u, y, e) && e in {Ack, Eof, Verdict}
    ensures Transferring(u, Next(u, y, e))
  {
    hide Serve, HeaderIn, HeaderBytes, Stream, Announcement, FirstBlock, Segments;
    var z := Next(u, y, e);
    assert ServiceOf(u, z) == ServiceOf(u, y);
    match e
    case Ack => AckRead();
    case Eof =>
    case Verdict => VerdictRead(ServiceOf(u, y).ok);
  }

  lemma {:induction false} AlwaysInv(u: Setup, y: Ends, events: seq<Event>, z: Ends)
    requires Sound(u) && Inv(u, y) && Leads(u, y, events, z)
    ensures Inv(u, z)
    decreases |events|
  {
    hide Inv, Next, Enabled, Remaining;
    if events != [] {
      StepDecreases(u, y, events[0]);
      AlwaysInv(u, Next(u, y, events[0]), events[1..], z);
    }
  }

  lemma FirstStep(u: Setup, e: Event)
    requires Fits(u.src.name) && Enabled(u, Begin(u), e)
    ensures e.Announce? && e.n <= 92 && (u.whole ==> e.n == 92)
  {
  }

  // ----- Every interleaving is finite

  function Steps(u: Setup, p: Phase): int {
    match p
    case AwaitAck => |u.src.contents| + 3
    case Sending(at) => |u.src.contents| - at + 2
    case AwaitVerdict => 1
    case Stopped(_) => 0
  }

  // The steps that a run can still take.
  function Remaining(u: Setup, y: Ends): int {
    Steps(u, y.client) + |u.src.contents|
    + if y.block.None? then (if u.whole then 1 else 92) else 92 - y.cut - |Stream(y.results)|
  }

  lemma RemainingNat(u: Setup, y: Ends)
    requires Sound(u) && Inv(u, y)
    ensures Remaining(u, y) >= 0
  {
    hide Stream, Announcement;
    if y.block.Some? {
      assert |Stream(y.results)| + |y.up| == 92 - y.cut + SentBytes(u, y.client);
    }
  }

  lemma StepDecreases(u: Setup, y: Ends, e: Event)
    requires Sound(u) && Inv(u, y) && Enabled(u, y, e)
    ensures Inv(u, Next(u, y, e)) && Remaining(u, Next(u, y, e)) < Remaining(u, y)
    ensures y.block.Some? ==> Next(u, y, e).block == y.block && Next(u, y, e).cut == y.cut
  {
    hide Serve, HeaderIn, ParseBlock, Announcement, FirstBlock, Buffer, Stream;
    if y.block.None? {
      FirstStep(u, e);
      AnnounceKeeps(u, e.n);
      AnnounceStarts(u, e.n);
    } else {
      match e {
        case Receive(n) =>
          ReceiveKeeps(u, y, n);
        case Announce(_) =>
        case Send =>
          SendKeeps(u, y);
        case Ack =>
          ClientKeeps(u, y, e);
          AckRead();
        case _ =>
          ClientKeeps(u, y, e);
      }
    }
  }

  lemma AnnounceStarts(u: Setup, n: nat)
    requires Sound(u) && Enabled(u, Begin(u), Announce(n)) && n <= 92
    ensures
      var z := Next(u, Begin(u), Announce(n));
      z.client == AwaitAck && z.results == [] && z.block.Some? && Stream(z.results) == []
  {
    hide Announcement, ParseBlock, Buffer, HeaderOf, FirstBlock;
    FirstRead(u, n);
  }

  lemma {:induction false} RunBound(u: Setup, y: Ends, events: seq<Event>, z: Ends)
    requires Sound(u) && Inv(u, y) && Leads(u, y, events, z)
    ensures |events| <= Remaining(u, y)
    decreases |events|
  {
    hide Remaining, Inv, Next, Enabled;
    RemainingNat(u, y);
    if events != [] {
      StepDecreases(u, y, events[0]);
      RunBound(u, Next(u, y, events[0]), events[1..], z);
    }
  }

  // No run of both ends is longer than this.
  lemma SessionBound(u: Setup, events: seq<Event>, z: Ends)
    requires Sound(u) && Leads(u, Begin(u), events, z)
    ensures |events| <= 2 * |u.src.contents| + (if u.whole then 4 else 95)
  {
    RunBound(u, Begin(u), events, z);
  }

  // ----- No interleaving is stuck, exactly when the source is not empty

  // Something comes after what the server took for the announcement.
  ghost predicate Alive(u: Setup, y: Ends) {
    u.src.contents != [] || (y.block.Some? && y.cut < 92)
  }

  lemma Progress(u: Setup, y: Ends)
    requires Sound(u) && Inv(u, y) && Alive(u, y) && !y.client.Stopped?
    ensures CanStep(u, y)
  {
    hide Serve, Taken, Stream, Announcement, FirstBlock;
    if y.block.None? {
      assert Enabled(u, y, Announce(92));
    } else {
      match y.client
      case AwaitAck => assert Enabled(u, y, Ack);
      case Sending(at) => assert Enabled(u, y, if at < |u.src.contents| then Send else Eof);
      case AwaitVerdict =>
        if ServiceOf(u, y).Served? {
          assert Enabled(u, y, Verdict);
        } else if y.up != [] {
          assert Enabled(u, y, Receive(1));
        } else {
          WaitsForMore(u, y);
        }
      case Stopped(_) =>
    }
  }

  lemma WaitsForMore(u: Setup, y: Ends)
    requires Sound(u) && Transferring(u, y) && ServiceOf(u, y).Waiting? && y.up == [] && y.client.AwaitVerdict?
    ensures !Alive(u, y)
  {
    hide Judged, WithPart, Announcement, FirstBlock;
    assert |Stream(y.results)| == 92 - y.cut + |u.src.contents|;
    ShorterLength(u, y.cut);
    if y.results != [] {
      LoopEnds(u.opens, y.block.value.length, y.results);
    }
  }

  // For an empty source nothing is in flight either way, the server waits for bytes and the client for the verdict.
  lemma EmptyStuck(u: Setup) returns (z: Ends)
    requires Sound(u) && u.src.contents == []
    ensures Reachable(u, z) && !CanStep(u, z) && z.client == AwaitVerdict
    ensures z.up == [] && z.down == [] && Serving(u, z) && ServiceOf(u, z).Waiting?
  {
    hide Serve, HeaderIn, Announcement, ParseBlock, FirstBlock, Buffer, HeaderOf;
    var a := Next(u, Begin(u), Announce(92));
    AnnounceKeeps(u, 92);
    AnnounceStarts(u, 92);
    AckRead();
    var b := Next(u, a, Ack);
    ClientKeeps(u, a, Ack);
    z := Next(u, b, Eof);
    ClientKeeps(u, b, Eof);
    assert Leads(u, z, [], z);
    LeadsCons(u, b, Eof, [], z);
    LeadsCons(u, a, Ack, [Eof] + [], z);
    LeadsCons(u, Begin(u), Announce(92), [Ack] + ([Eof] + []), z);
    ServedLater(u, z);
  }

  lemma NeverStuckIff(u: Setup)
    requires Sound(u)
    ensures (forall z | Reachable(u, z) && !CanStep(u, z) :: z.client.Stopped?) <==> u.src.contents != []
  {
    hide Inv, CanStep;
    if u.src.contents == [] {
      var z := EmptyStuck(u);
    } else {
      forall z | Reachable(u, z) && !CanStep(u, z)
        ensures z.client.Stopped?
      {
        ReachableInv(u, z);
        if !z.client.Stopped? {
          Progress(u, z);
        }
      }
    }
  }

  lemma ReachableInv(u: Setup, z: Ends)
    requires Sound(u) && Reachable(u, z)
    ensures Inv(u, z)
  {
    hide Next, Enabled;
    var events :| Leads(u, Begin(u), events, z);
    AlwaysInv(u, Begin(u), events, z);
  }

  // ----- What the client is told

  lemma StoppedServed(u: Setup, z: Ends)
    requires Sound(u) && Reachable(u, z) && z.client.Stopped?
    ensures Transferring(u, z) && ServiceOf(u, z).Served?
    ensures z.client.result == if ServiceOf(u, z).ok then Confirmed else Denied
  {
    ReachableInv(u, z);
  }

  // A server that has judged has received a first byte; from an open part file, the whole source.
  lemma AllReceived(u: Setup, y: Ends)
    requires Sound(u) && Transferring(u, y) && u.whole && ServiceOf(u, y).Served?
    ensures u.src.contents != [] && (u.opens ==> Stream(y.results) == u.src.contents)
  {
    hide Judged, WithPart, Stream, Announcement, FirstBlock;
    WholeBlock(u);
    var n := Taken(u.opens, |u.src.contents|, 0, y.results).0;
    assert |Stream(y.results)| + |y.up| == SentBytes(u, y.client);
    if u.src.contents == [] {
      LoopEndsIff(u.opens, [], y.results);
    } else if u.opens {
      TakenBounds(|u.src.contents|, 0, y.results);
      if n < |y.results| {
        StreamGrows(y.results, n);
      }
      assert y.results[..|y.results|] == y.results;
      var sent := u.src.contents[..SentBytes(u, y.client)];
      assert Stream(y.results) + y.up == Announcement(u.src, u.hash)[92..] + sent == sent;
      assert y.up == [] && sent == u.src.contents;
    }
  }

  // When the announcement comes in one segment: the client confirms exactly when the server accepts, and then the file
  // under its name is the source, or else there was no part file at all and nothing is published.
  lemma Outcome(u: Setup, z: Ends)
    requires Sound(u) && u.whole && NoCollision(u.hash, u.src.contents)
    requires Reachable(u, z) && z.client.Stopped?
    ensures Serving(u, z) && ServiceOf(u, z).Served?
    ensures
      var disk := ServiceOf(u, z).disk;
      var path, back := PICTUREPATH + u.src.name, PICTUREPATH + u.src.name + FILEPART;
      && z.client.result in {Confirmed, Denied}
      && (z.client.result == Confirmed <==> Accepts(u.hash, u.src.contents, u.disk, back, u.opens))
      && (z.client.result == Confirmed && (u.opens || back in u.disk.names) ==>
            Moved(u.disk, disk, back, path) && ValidDisk(disk) && disk.files[disk.names[path]] == u.src.contents)
      && (z.client.result == Confirmed && !u.opens && back !in u.disk.names ==> disk == u.disk)
      && (z.client.result == Denied ==> disk == WithPart(u.disk, back, u.opens, u.src.contents))
  {
    hide NoCollision, Announcement, FirstBlock, Judged, WithPart;
    StoppedServed(u, z);
    AllReceived(u, z);
    WholeBlock(u);
    if u.opens {
      TcpClient.Transferred(u.hash, u.src.contents, u.src.name, u.disk, true, z.results);
    } else {
      NothingWritten(u.hash, u.src.contents, u.src.name, u.disk, z.results);
      UnopenedPart(u.disk, PICTUREPATH + u.src.name + FILEPART, u.src.contents);
    }
  }

  // ----- When "file send is ok" can be believed

  // A client that was told ok: a file with the digest of the source stands under its name.
  ghost predicate Honest(u: Setup, z: Ends) {
    z.client == Stopped(Confirmed) ==>
      && Serving(u, z)
      && var disk, path := ServiceOf(u, z).disk, PICTUREPATH + u.src.name;
         path in disk.names && disk.names[path] < |disk.files|
         && u.hash(disk.files[disk.names[path]]) == u.hash(u.src.contents)
  }

  ghost predicate AlwaysHonest(hash: Hash, src: Source, whole: bool)
    requires Fits(src.name)
  {
    forall u, z | Sound(u) && u.hash == hash && u.src == src && u.whole == whole && Reachable(u, z) :: Honest(u, z)
  }

  lemma JudgedHonest(hash: Hash, d: Disk, path: string, back: string, md5: Digest)
    requires ValidDisk(d) && md5 != NO_DIGEST && path != back
    ensures
      var (judged, ok) := Judged(hash, d, path, back, md5);
      ok ==> path in judged.names && judged.names[path] < |judged.files|
             && hash(judged.files[judged.names[path]]) == md5
  {
  }

  lemma HonestRun(u: Setup, z: Ends)
    requires Sound(u) && u.whole && Reachable(u, z)
    requires u.src.contents == [] || u.hash(u.src.contents) != NO_DIGEST
    ensures Honest(u, z)
  {
    hide Announcement, FirstBlock, Judged, WithPart;
    if z.client == Stopped(Confirmed) {
      StoppedServed(u, z);
      AllReceived(u, z);
      WholeBlock(u);
      var b := Announced(u);
      var path, back := PICTUREPATH + b.name, PICTUREPATH + b.name + FILEPART;
      assert |path| < |back|;
      var n := Taken(u.opens, b.length, 0, z.results).0;
      JudgedHonest(u.hash, WithPart(u.disk, back, u.opens, Stream(z.results[..n])), path, back, b.md5);
    }
  }

  // Some interleaving goes on to the end of the client.
  lemma {:induction false} RunToEnd(u: Setup, y: Ends) returns (events: seq<Event>, z: Ends)
    requires Sound(u) && Inv(u, y) && y.block.Some? && Alive(u, y)
    ensures Leads(u, y, events, z) && z.client.Stopped? && z.block == y.block && z.cut == y.cut
    decreases Remaining(u, y)
  {
    hide Inv, Next, Enabled, Remaining;
    if y.client.Stopped? {
      events, z := [], y;
    } else {
      Progress(u, y);
      var e :| Enabled(u, y, e);
      StepDecreases(u, y, e);
      RemainingNat(u, y);
      RemainingNat(u, Next(u, y, e));
      var rest;
      rest, z := RunToEnd(u, Next(u, y, e));
      LeadsCons(u, y, e, rest, z);
      events := [e] + rest;
    }
  }

  // A part file that does not open, and an announcement of which n bytes come first, with a zero digest in them:
  // the client is told ok, and the disk is as empty as before.
  lemma DishonestRun(u: Setup, n: nat) returns (z: Ends)
    requires Sound(u) && !u.opens && u.disk == Disk(map[], []) && 0 < n <= 92
    requires (u.whole ==> n == 92) && FirstBlock(u, n).md5 == NO_DIGEST && (u.src.contents != [] || n < 92)
    ensures Reachable(u, z) && !Honest(u, z)
  {
    hide Announcement, FirstBlock, Inv, Next, Enabled, Stream, Taken;
    AnnounceEnabled(u, n);
    AnnounceKeeps(u, n);
    AnnounceStarts(u, n);
    var y := Next(u, Begin(u), Announce(n));
    var events;
    events, z := RunToEnd(u, y);
    LeadsCons(u, Begin(u), Announce(n), events, z);
    StoppedServed(u, z);
  }

  lemma AnnounceEnabled(u: Setup, n: nat)
    requires Sound(u) && 0 < n <= 92 && (u.whole ==> n == 92)
    ensures Enabled(u, Begin(u), Announce(n))
  {
  }

  // "ok" is honest in every run exactly when the announcement is sure to come in one segment, and its digest is not
  // zero or the source is empty.
  lemma HonestIff(hash: Hash, src: Source, whole: bool)
    requires Fits(src.name) && src.opens && |src.contents| + MAXLINE <= WORDS
    ensures AlwaysHonest(hash, src, whole) <==> whole && (src.contents == [] || hash(src.contents) != NO_DIGEST)
  {
    hide Honest, FirstBlock;
    if whole && (src.contents == [] || hash(src.contents) != NO_DIGEST) {
      forall u, z | Sound(u) && u.hash == hash && u.src == src && u.whole == whole && Reachable(u, z)
        ensures Honest(u, z)
      {
        HonestRun(u, z);
      }
    } else {
      var u := Setup(hash, src, Disk(map[], []), false, whole);
      ZeroFirst(u);
      var z := DishonestRun(u, if whole then 92 else 72);
    }
  }

  lemma ZeroFirst(u: Setup)
    requires Sound(u)
    ensures FirstBlock(u, 92) == Announced(u) && FirstBlock(u, 72).md5 == NO_DIGEST
  {
    WholeBlock(u);
    CutAfterName(Announced(u));
  }

  // ----- The two programs, one after the other over the same bytes

  // The server gets the announcement in one segment and the source cut as results say; the client gets its replies.
  method Transfer(src: Source, server: TcpServer.Receiver, opens: bool, clientBuf: array<uint8>, results: seq<Recv>)
    returns (result: Result)
    requires server.Valid() && server.filePath == "" && server.filePathBack == ""
    requires Fits(src.name) && src.opens && NoCollision(server.hash, src.contents)
    requires 0 < |src.contents| && |src.contents| + MAXLINE <= WORDS
    requires Segments(results) && Stream(results) == src.contents
    requires clientBuf.Length == MAXLINE && clientBuf != server.buf && forall i | 0 <= i < MAXLINE :: clientBuf[i] == 0
    modifies server, server.buf, clientBuf
    ensures
      var path, back := PICTUREPATH + src.name, PICTUREPATH + src.name + FILEPART;
      && result in {Confirmed, Denied}
      && (result == Confirmed <==> Accepts(server.hash, src.contents, old(server.disk), back, opens))
      && (result == Confirmed && (opens || back in old(server.disk).names) ==>
            Moved(old(server.disk), server.disk, back, path) && ValidDisk(server.disk)
            && server.disk.files[server.disk.names[path]] == src.contents)
      && (result == Confirmed && !opens && back !in old(server.disk).names ==> server.disk == old(server.disk))
      && (result == Denied ==> server.disk == WithPart(old(server.disk), back, opens, src.contents))
  {
    hide Serve, HeaderIn, ParseBlock, Announcement, Accepts, NoCollision, Stream;
    var hash := server.hash;
    ghost var disk := server.disk;
    var message := Announcement(src, hash) + Zeros(MAXLINE - 92);
    Put(server.buf, 0, message);
    assert server.buf[8..] == message[8..];
    AnnouncementRead(src, hash, Zeros(MAXLINE - 92));
    AnnouncementStarts(src, hash);
    assert server.buf[..2] == Announcement(src, hash)[..4][..2];
    TcpClient.Transferred(hash, src.contents, src.name, disk, opens, results);
    assert server.filePath + PICTUREPATH + src.name == PICTUREPATH + src.name;
    assert server.filePathBack + PICTUREPATH + src.name + FILEPART == PICTUREPATH + src.name + FILEPART;
    var replies := server.CmdReqsendDeel(opens, results);
    AckRead();
    VerdictRead(true);
    VerdictRead(false);
    assert replies[0] == ACK;
    var announcement, sent;
    announcement, sent, result := RequestSendfile(src, hash, clientBuf, Segment(replies[0]), Segment(replies[1]));
    assert Concat(sent) == Stream(results);
  }
}
