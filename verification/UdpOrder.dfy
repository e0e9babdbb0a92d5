// What reaches the part file over a channel that loses and repeats datagrams but keeps their order.
module UdpOrder {

  import opened TransferFiles
  import opened UdpServer
  import opened UdpClient
  import opened UdpSession
  import opened UdpSafety

  // ----- What the sender sends, whatever it receives

  // The announcement, then chunks of the source in order, none left out, each any number of times, then FINISH.
  ghost predicate InOrder(hash: Hash, src: Source, sent: seq<Message>) {
    && |sent| > 0 && sent[0] == Announcement(src, hash)
    && (forall i | 0 < i < |sent| ::
          && (sent[i] == Finish(REQ_NOR) ==> i == |sent| - 1)
          && (sent[i] != Finish(REQ_NOR) ==>
                && sent[i].Chunk? && sent[i] == ChunkMessage(src, sent[i].index)
                && BUF_MAX_LEN * sent[i].index < |src.contents|))
    && (|sent| > 1 ==> sent[1].Chunk? && sent[1].index == 0)
    && (forall i | 0 < i < |sent| - 1 && sent[i].Chunk? && sent[i + 1].Chunk? ::
          sent[i].index <= sent[i + 1].index <= sent[i].index + 1)
  }

  ghost predicate Ahead(src: Source, c: Client, sent: seq<Message>) {
    && (c.phase == AwaitOpen ==> |sent| == 1 && c.index == 0)
    && (c.phase == AwaitChunk ==>
          |sent| > 1 && sent[|sent| - 1] == ChunkMessage(src, c.index) && ChunkAt(src.contents, c.index) != [])
  }

  lemma ChunkInOrder(hash: Hash, src: Source, sent: seq<Message>, k: nat)
    requires InOrder(hash, src, sent) && ChunkAt(src.contents, k) != []
    requires
      var last := sent[|sent| - 1];
      if |sent| == 1 then k == 0 else last.Chunk? && last.index <= k <= last.index + 1
    ensures InOrder(hash, src, sent + [ChunkMessage(src, k)])
  {
    hide ChunkAt;
    var all := sent + [ChunkMessage(src, k)];
    forall i | 0 < i < |all| - 1 && all[i].Chunk? && all[i + 1].Chunk?
      ensures all[i].index <= all[i + 1].index <= all[i].index + 1
    {
      if i + 1 < |sent| {
        assert all[i] == sent[i] && all[i + 1] == sent[i + 1];
      }
    }
  }

  lemma FinishInOrder(hash: Hash, src: Source, sent: seq<Message>)
    requires InOrder(hash, src, sent) && |sent| > 1 && sent[|sent| - 1].Chunk?
    ensures InOrder(hash, src, sent + [Finish(REQ_NOR)])
  {
    var all := sent + [Finish(REQ_NOR)];
    forall i | 0 < i < |all| - 1 && all[i].Chunk? && all[i + 1].Chunk?
      ensures all[i].index <= all[i + 1].index <= all[i].index + 1
    {
      assert all[i] == sent[i] && all[i + 1] == sent[i + 1];
    }
  }

  lemma StepInOrder(hash: Hash, src: Source, c: Client, sent: seq<Message>, r: Receive)
    requires InOrder(hash, src, sent) && Ahead(src, c, sent)
    ensures
      var (c', more) := Step(src, c, r);
      InOrder(hash, src, sent + more) && Ahead(src, c', sent + more)
  {
    hide ChunkAt, InOrder;
    var (c', more) := Step(src, c, r);
    if more == [] {
      assert sent + more == sent;
    } else if more[0] == Finish(REQ_NOR) {
      FinishInOrder(hash, src, sent);
    } else {
      ChunkInOrder(hash, src, sent, c'.index);
      if |more| == 2 {
        ChunkInOrder(hash, src, sent + [more[0]], c'.index);
        assert sent + more == sent + [more[0]] + [more[1]];
      }
    }
  }

  lemma {:induction false} SentInOrder(src: Source, hash: Hash, receives: seq<Receive>)
    ensures
      var (c, sent) := Run(src, hash, receives);
      InOrder(hash, src, sent) && Ahead(src, c, sent)
  {
    hide InOrder, Ahead, Step;
    if receives == [] {
      StartInOrder(src, hash);
    } else {
      var n := |receives| - 1;
      SentInOrder(src, hash, receives[..n]);
      var (c, sent) := Run(src, hash, receives[..n]);
      StepInOrder(hash, src, c, sent, receives[n]);
    }
  }

  lemma StartInOrder(src: Source, hash: Hash)
    ensures InOrder(hash, src, [Announcement(src, hash)]) && Ahead(src, START, [Announcement(src, hash)])
  {
  }

  lemma {:induction false} IndexMonotone(hash: Hash, src: Source, sent: seq<Message>, i: nat, j: nat)
    requires InOrder(hash, src, sent) && 0 < i <= j < |sent| && sent[j].Chunk?
    ensures sent[i].Chunk? && sent[i].index <= sent[j].index
    decreases j
  {
    if i < j {
      assert sent[j - 1].Chunk?;
      IndexMonotone(hash, src, sent, i, j - 1);
    }
  }

  // ----- What the server writes

  // What one write took: the first `count` bytes of a chunk.
  datatype Piece = Piece(index: nat, count: nat)

  // The server with the writes since the last opening of a part file, and what that file held then.
  datatype Track = Track(server: Server, base: File, log: seq<Piece>)

  datatype Delivery = Delivery(i: nat, outcome: Outcome)

  function TrackStep(hash: Hash, t: Track, m: Message, o: Outcome): Track
    requires Valid(t.server) && Legal(t.server, m, o)
  {
    var s := Handled(hash, t.server, m, o).0;
    if m.Announce? && m.kind == REQ_NOR then
      Track(s, if s.fd.Part? && s.fd.inode < |s.disk.files| then s.disk.files[s.fd.inode] else [], [])
    else if m.Chunk? && m.kind == REQ_NORE && o.written >= 0 then Track(s, t.base, t.log + [Piece(m.index, o.written)])
    else t.(server := s)
  }

  // The deliveries of a channel that keeps order: their positions in what was sent never go back.
  ghost predicate Serves(hash: Hash, sent: seq<Message>, from: nat, t: Track, ds: seq<Delivery>, z: Track)
    decreases |ds|
  {
    if ds == [] then z == t
    else
      var d := ds[0];
      && from <= d.i < |sent| && Valid(t.server) && Legal(t.server, sent[d.i], d.outcome)
      && Serves(hash, sent, d.i, TrackStep(hash, t, sent[d.i], d.outcome), ds[1..], z)
  }

  // The bytes of a piece of f.
  function PieceBytes(f: File, p: Piece): File {
    ChunkAt(f, p.index)[..Min(p.count, |ChunkAt(f, p.index)|)]
  }

  // The bytes of the pieces, one after the other.
  function Joined(f: File, log: seq<Piece>): File {
    if log == [] then [] else Joined(f, log[..|log| - 1]) + PieceBytes(f, log[|log| - 1])
  }

  // Pieces of chunks that f has, in the order of the chunks.
  ghost predicate PiecesInOrder(f: File, log: seq<Piece>) {
    && (forall i, j | 0 <= i <= j < |log| :: log[i].index <= log[j].index)
    && (forall i | 0 <= i < |log| :: ChunkAt(f, log[i].index) != [] && log[i].count <= |ChunkAt(f, log[i].index)|)
  }

  // The part file holds the logged pieces over what it held before.
  ghost predicate Logged(src: Source, t: Track) {
    var s := t.server;
    && Valid(s) && (s.path == "" <==> s.back == "")
    && PiecesInOrder(src.contents, t.log)
    && (s.fd.Part? ==> s.disk.files[s.fd.inode] == Overlay(t.base, 0, Joined(src.contents, t.log))
                       && s.fd.at == |Joined(src.contents, t.log)|)
  }

  // No logged piece comes after the sender's position `from`.
  ghost predicate Behind(sent: seq<Message>, from: nat, log: seq<Piece>) {
    log != [] ==> 0 < from < |sent| && (sent[from].Chunk? ==> log[|log| - 1].index <= sent[from].index)
  }

  lemma JoinedSnoc(f: File, log: seq<Piece>, p: Piece)
    ensures Joined(f, log + [p]) == Joined(f, log) + PieceBytes(f, p)
  {
    assert (log + [p])[..|log|] == log;
  }

  lemma PieceInOrder(f: File, log: seq<Piece>, p: Piece)
    requires PiecesInOrder(f, log) && (log != [] ==> log[|log| - 1].index <= p.index)
    requires ChunkAt(f, p.index) != [] && p.count <= |ChunkAt(f, p.index)|
    ensures PiecesInOrder(f, log + [p])
  {
    hide ChunkAt;
  }

  lemma ChunkLogged(hash: Hash, src: Source, t: Track, k: nat, o: Outcome)
    requires Logged(src, t) && Legal(t.server, ChunkMessage(src, k), o)
    requires ChunkAt(src.contents, k) != [] && (t.log != [] ==> t.log[|t.log| - 1].index <= k)
    ensures Logged(src, TrackStep(hash, t, ChunkMessage(src, k), o))
  {
    hide ChunkAt, Joined, Overlay, PiecesInOrder;
    var chunk := ChunkAt(src.contents, k);
    if o.written >= 0 {
      var p := Piece(k, o.written);
      JoinedSnoc(src.contents, t.log, p);
      PieceInOrder(src.contents, t.log, p);
      OverlayTwice(t.base, 0, Joined(src.contents, t.log), chunk[..o.written]);
    }
    ReceivedValid(t.server, chunk, o.written);
  }

  lemma OtherLogged(hash: Hash, src: Source, t: Track, m: Message, o: Outcome)
    requires Logged(src, t) && Legal(t.server, m, o) && (m == Finish(REQ_NOR) || (m.Announce? && m.kind == REQ_NOR))
    ensures Logged(src, TrackStep(hash, t, m, o))
  {
    hide Overlay;
    HandledValid(hash, t.server, m, o);
    if m.Announce? {
      OverlayNothing(TrackStep(hash, t, m, o).base);
    }
  }

  lemma OverlayNothing(c: File)
    ensures Overlay(c, 0, []) == c
  {
  }

  lemma {:induction false} WrittenInOrder(
    hash: Hash, src: Source, sent: seq<Message>, from: nat, t: Track, ds: seq<Delivery>, z: Track)
    requires InOrder(hash, src, sent) && Logged(src, t) && Behind(sent, from, t.log)
    requires Serves(hash, sent, from, t, ds, z)
    ensures Logged(src, z)
    decreases |ds|
  {
    hide Logged, TrackStep, Overlay;
    if ds != [] {
      DeliveryLogged(hash, src, sent, from, t, ds[0]);
      WrittenInOrder(hash, src, sent, ds[0].i, TrackStep(hash, t, sent[ds[0].i], ds[0].outcome), ds[1..], z);
    }
  }

  lemma DeliveryLogged(hash: Hash, src: Source, sent: seq<Message>, from: nat, t: Track, d: Delivery)
    requires InOrder(hash, src, sent) && Logged(src, t) && Behind(sent, from, t.log)
    requires from <= d.i < |sent| && Legal(t.server, sent[d.i], d.outcome)
    ensures
      var t' := TrackStep(hash, t, sent[d.i], d.outcome);
      Logged(src, t') && Behind(sent, d.i, t'.log)
  {
    hide Valid, Handled, Legal, Overlay, PiecesInOrder;
    var m := sent[d.i];
    if d.i > 0 && m.Chunk? {
      if t.log != [] {
        IndexMonotone(hash, src, sent, from, d.i);
      }
      ChunkLogged(hash, src, t, m.index, d.outcome);
    } else {
      OtherLogged(hash, src, t, m, d.outcome);
    }
  }

  // Every piece is its whole chunk.
  ghost predicate AllWhole(f: File, log: seq<Piece>) {
    forall i | 0 <= i < |log| :: PieceBytes(f, log[i]) == ChunkAt(f, log[i].index)
  }

  predicate WholeWrite(sent: seq<Message>, d: Delivery) {
    d.i < |sent| && sent[d.i].Chunk? ==> d.outcome.written in {-1, |sent[d.i].bytes|}
  }

  lemma {:induction false} WholeWrites(
    hash: Hash, src: Source, sent: seq<Message>, from: nat, t: Track, ds: seq<Delivery>, z: Track)
    requires InOrder(hash, src, sent) && Serves(hash, sent, from, t, ds, z) && AllWhole(src.contents, t.log)
    requires forall k | 0 <= k < |ds| :: WholeWrite(sent, ds[k])
    ensures AllWhole(src.contents, z.log)
    decreases |ds|
  {
    hide Handled, ChunkAt;
    if ds != [] {
      var rest, m := ds[1..], sent[ds[0].i];
      if m.Chunk? {
        assert sent[ds[0].i] == ChunkMessage(src, m.index);
      }
      assert forall k | 0 <= k < |rest| :: rest[k] == ds[k + 1];
      WholeWrites(hash, src, sent, ds[0].i, TrackStep(hash, t, m, ds[0].outcome), rest, z);
    }
  }

  // Over such a channel, whatever the sender receives, whatever is lost or repeated and however much each write takes:
  // the part file always holds pieces from the starts of source chunks, in the order of the chunks, over what was left;
  // whole chunks when every write is whole or fails.
  lemma {:induction false} PartFileInOrder(
    hash: Hash, src: Source, receives: seq<Receive>, s: Server, ds: seq<Delivery>, z: Track)
    requires Fresh(s) && Serves(hash, Run(src, hash, receives).1, 0, Track(s, [], []), ds, z)
    ensures PiecesInOrder(src.contents, z.log)
    ensures (forall k | 0 <= k < |ds| :: WholeWrite(Run(src, hash, receives).1, ds[k])) ==>
              AllWhole(src.contents, z.log)
    ensures Valid(z.server)
    ensures z.server.fd.Part? ==>
      z.server.disk.files[z.server.fd.inode] == Overlay(z.base, 0, Joined(src.contents, z.log))
  {
    hide Run;
    SentInOrder(src, hash, receives);
    var sent := Run(src, hash, receives).1;
    WrittenInOrder(hash, src, sent, 0, Track(s, [], []), ds, z);
    if forall k | 0 <= k < |ds| :: WholeWrite(sent, ds[k]) {
      WholeWrites(hash, src, sent, 0, Track(s, [], []), ds, z);
    }
  }

  // ----- Over such a channel no chunk comes after the publication

  ghost predicate KeepsOrder(events: seq<Event>, from: nat)
    decreases |events|
  {
    events == [] ||
    match events[0]
    case ToServer(i, _) => from <= i && KeepsOrder(events[1..], i)
    case _ => KeepsOrder(events[1..], from)
  }

  ghost predicate NothingLate(hash: Hash, src: Source, y: Session, from: nat) {
    && InOrder(hash, src, y.sent) && Ahead(src, y.client, y.sent) && y.late == []
    && (y.published != [] ==> from < |y.sent| && y.sent[from] == Finish(REQ_NOR))
  }

  lemma ClientNothingLate(hash: Hash, src: Source, y: Session, from: nat, r: Receive)
    requires NothingLate(hash, src, y, from)
    ensures NothingLate(hash, src, ClientStep(src, y, r), from)
  {
    hide InOrder;
    StepInOrder(hash, src, y.client, y.sent, r);
  }

  lemma ServerNothingLate(hash: Hash, src: Source, y: Session, from: nat, i: nat, o: Outcome)
    requires NothingLate(hash, src, y, from)
    requires from <= i < |y.sent| && Valid(y.server) && Legal(y.server, y.sent[i], o)
    ensures NothingLate(hash, src, ServerStep(hash, y, y.sent[i], o), i)
  {
  }

  lemma {:induction false} NeverLate(hash: Hash, src: Source, y: Session, from: nat, events: seq<Event>, z: Session)
    requires NothingLate(hash, src, y, from) && Leads(hash, src, y, events, z) && KeepsOrder(events, from)
    ensures z.late == []
    decreases |events|
  {
    hide ServerStep, ClientStep, InOrder, Valid, Legal;
    if events != [] {
      var next := Next(hash, src, y, events[0]);
      match events[0] {
        case ToServer(i, o) =>
          ServerNothingLate(hash, src, y, from, i, o);
          NeverLate(hash, src, next, i, events[1..], z);
        case ToClient(j) =>
          ClientNothingLate(hash, src, y, from, Reply(y.replies[j]));
          NeverLate(hash, src, next, from, events[1..], z);
        case Expire =>
          ClientNothingLate(hash, src, y, from, Timeout);
          NeverLate(hash, src, next, from, events[1..], z);
      }
    }
  }

  // A confirmed source is then on the disk under its name, unchanged.
  lemma ConfirmedInOrder(hash: Hash, src: Source, y: Session, events: seq<Event>, z: Session)
    requires Starts(hash, src, y) && y.once && Leads(hash, src, y, events, z) && KeepsOrder(events, 0)
    requires src.opens && hash(src.contents) != NO_DIGEST && NoCollision(hash, src.contents)
    requires z.client.phase == Stopped(Confirmed)
    ensures Valid(z.server) && PathOf(src) in z.server.disk.names
    ensures z.server.disk.files[z.server.disk.names[PathOf(src)]] == src.contents
  {
    SafeRun(hash, src, y, events, z);
    NeverLate(hash, src, y, 0, events, z);
  }
}
