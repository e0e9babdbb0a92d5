// The sender of filesend/udpfilesend/udp-client.c: sendfile, one step for each return of recvfrom.
module UdpClient {

  import opened Wrappers
  import opened TransferFiles
  import opened UdpServer

  // A return of udprev: a reply, or the receive time-out, which leaves the buffer as it was.
  datatype Receive = Reply(header: Header) | Timeout

  datatype Result = Confirmed | Failed | Refused | NoSpace | Unopened | NothingToSend

  datatype Phase = AwaitOpen | AwaitChunk | AwaitVerdict | Stopped(result: Result)

  // recv is the header in recvbuf, index the chunk that sendbuf holds.
  datatype Client = Client(phase: Phase, recv: Header, index: nat)

  const CLEARED: Header := Header(0, 0)

  // What sendfile returns.
  function StatusOf(r: Result): int {
    if r in {NoSpace, Unopened, NothingToSend} then -1 else 0
  }

  function Min(a: nat, b: nat): (m: nat)
    ensures m <= a && m <= b
  {
    if a <= b then a else b
  }

  // The i-th read of BUF_MAX_LEN bytes; empty at end of file.
  function ChunkAt(f: File, i: nat): (c: File)
    ensures |c| <= BUF_MAX_LEN && (c == [] <==> BUF_MAX_LEN * i >= |f|)
  {
    f[Min(BUF_MAX_LEN * i, |f|)..Min(BUF_MAX_LEN * (i + 1), |f|)]
  }

  function Announcement(src: Source, hash: Hash): Message {
    Announce(REQ_NOR, FileBlock(src.name, AnnouncedDigest(src, hash), |src.contents| % 0x1_0000_0000))
  }

  function ChunkMessage(src: Source, i: nat): Message {
    Chunk(REQ_NORE, ChunkAt(src.contents, i), i)
  }

  // The datagrams of the sender: their headers, the announced name and length, and the bytes of chunk i.
  lemma Datagrams(src: Source, hash: Hash, i: nat)
    ensures HeaderOf(Announcement(src, hash)) == Header(1, 0)
    ensures HeaderOf(ChunkMessage(src, i)) == Header(2, 4) && HeaderOf(Finish(REQ_NOR)) == Header(3, 0)
    ensures
      var block := Announcement(src, hash).block;
      && block.name == src.name && (block.length == |src.contents| <==> |src.contents| < 0x1_0000_0000)
      && (src.opens ==> block.md5 == hash(src.contents)) && (!src.opens ==> block.md5 == seq(16, _ => 0))
    ensures
      var bytes, rest := ChunkMessage(src, i).bytes, |src.contents| - 4096 * i;
      && |bytes| == (if rest >= 4096 then 4096 else if rest > 0 then rest else 0)
      && forall j | 0 <= j < |bytes| :: bytes[j] == src.contents[4096 * i + j]
  {
  }

  function Buffered(before: Header, r: Receive): Header {
    if r.Reply? then r.header else before
  }

  // One return of recvfrom: the new state, and the datagrams sent before the next one.
  function Step(src: Source, c: Client, r: Receive): (Client, seq<Message>) {
    match c.phase
    case AwaitOpen =>
      if Buffered(CLEARED, r) != Header(SEND_FILEMSG_REQ, ACK_OK) then (c.(phase := Stopped(Refused)), [])
      else if !src.opens then (c.(phase := Stopped(Unopened)), [])
      else if ChunkAt(src.contents, 0) == [] then (c.(phase := Stopped(NothingToSend)), [])
      else (c.(phase := AwaitChunk), [ChunkMessage(src, 0)])
    case AwaitChunk =>
      var recv := Buffered(c.recv, r);
      if recv == Header(SEND_FILE, ACK_OK) then
        if ChunkAt(src.contents, c.index + 1) == [] then (c.(phase := AwaitVerdict, recv := recv), [Finish(REQ_NOR)])
        else (Client(AwaitChunk, recv, c.index + 1), [ChunkMessage(src, c.index + 1)])
      else if recv.kind == ACK_NOSP then (c.(phase := Stopped(NoSpace), recv := recv), [])
      else (c.(recv := recv), [ChunkMessage(src, c.index), ChunkMessage(src, c.index)])
    case AwaitVerdict =>
      if Buffered(Header(SEND_FINISH, REQ_NOR), r) == Header(SEND_FINISH, ACK_OK) then
        (c.(phase := Stopped(Confirmed)), [])
      else (c.(phase := Stopped(Failed)), [])
    case Stopped(_) => (c, [])
  }

  const START: Client := Client(AwaitOpen, CLEARED, 0)

  // The sender after these returns of recvfrom, and all it has sent.
  function Run(src: Source, hash: Hash, receives: seq<Receive>): (Client, seq<Message>) {
    if receives == [] then (START, [Announcement(src, hash)])
    else
      var (c, sent) := Run(src, hash, receives[..|receives| - 1]);
      var (c', more) := Step(src, c, receives[|receives| - 1]);
      (c', sent + more)
  }

  lemma RunNone(src: Source, hash: Hash, receives: seq<Receive>)
    ensures Run(src, hash, receives[..0]) == (START, [Announcement(src, hash)])
  {
  }

  lemma RunSnoc(src: Source, hash: Hash, receives: seq<Receive>, n: nat)
    requires n < |receives|
    ensures
      var (c, sent) := Run(src, hash, receives[..n]);
      var (c', more) := Step(src, c, receives[n]);
      Run(src, hash, receives[..n + 1]) == (c', sent + more)
  {
    assert receives[..n + 1][..n] == receives[..n];
  }

  lemma StepStopped(src: Source, c: Client, r: Receive)
    requires c.phase.Stopped?
    ensures Step(src, c, r) == (c, [])
  {
  }

  lemma {:induction false} RunStopped(src: Source, hash: Hash, receives: seq<Receive>, n: nat)
    requires n <= |receives| && Run(src, hash, receives[..n]).0.phase.Stopped?
    ensures Run(src, hash, receives) == Run(src, hash, receives[..n])
    decreases |receives|
  {
    hide Step;
    if n < |receives| {
      var k := |receives| - 1;
      assert receives[..k][..n] == receives[..n];
      RunStopped(src, hash, receives[..k], n);
      var (c, sent) := Run(src, hash, receives[..k]);
      StepStopped(src, c, receives[k]);
      assert sent + [] == sent;
    } else {
      assert receives[..n] == receives;
    }
  }

  // ----- Time-outs alone

  // The sender after n time-outs.
  function TimedOut(src: Source, c: Client, n: nat): Client
    decreases n
  {
    if n == 0 then c else TimedOut(src, Step(src, c, Timeout).0, n - 1)
  }

  // The last reply in recvbuf makes the sender repeat the chunk.
  predicate Repeating(c: Client) {
    c.phase == AwaitChunk && c.recv != Header(SEND_FILE, ACK_OK) && c.recv.kind != ACK_NOSP
  }

  lemma {:induction false} RepeatsOn(src: Source, c: Client, n: nat)
    requires Repeating(c)
    ensures TimedOut(src, c, n) == c
  {
    if n > 0 {
      RepeatsOn(src, c, n - 1);
    }
  }

  // What a time-out brings down.
  function TimeoutRank(src: Source, c: Client): nat {
    if c.phase == AwaitChunk then 2 + |src.contents| - Min(BUF_MAX_LEN * c.index, |src.contents|)
    else if c.phase.Stopped? then 0
    else 1
  }

  lemma {:induction false} TimeoutsEnd(src: Source, c: Client) returns (n: nat)
    requires !Repeating(c)
    ensures TimedOut(src, c, n).phase.Stopped?
    decreases TimeoutRank(src, c)
  {
    if c.phase.Stopped? {
      n := 0;
    } else {
      n := TimeoutsEnd(src, Step(src, c, Timeout).0);
      n := n + 1;
    }
  }

  // They end sendfile exactly when recvbuf does not make it repeat the chunk; else they never do.
  lemma TimeoutsEndIff(src: Source, c: Client)
    ensures (exists n: nat :: TimedOut(src, c, n).phase.Stopped?) <==> !Repeating(c)
  {
    if Repeating(c) {
      forall n: nat
        ensures !TimedOut(src, c, n).phase.Stopped?
      {
        RepeatsOn(src, c, n);
      }
    } else {
      var n := TimeoutsEnd(src, c);
    }
  }

  // sendfile against these returns of recvfrom; no result while the last of them leaves it waiting.
  method SendFile(src: Source, hash: Hash, receives: seq<Receive>)
    returns (sent: seq<Message>, result: Option<Result>, status: int)
    ensures
      var (c, history) := Run(src, hash, receives);
      history == sent && result == if c.phase.Stopped? then Some(c.phase.result) else None
    ensures result.Some? ==> status == StatusOf(result.value)
  {
    hide Run, Min, ChunkAt;
    RunNone(src, hash, receives);
    NextRead(src.contents, 0);
    var block := FileBlock(src.name, NO_DIGEST, |src.contents| % 0x1_0000_0000);
    if src.opens {
      block := block.(md5 := hash(src.contents));
    }
    sent := [Announce(REQ_NOR, block)];
    if |receives| == 0 {
      return sent, None, 0;
    }
    assert receives[..|receives|] == receives;
    RunSnoc(src, hash, receives, 0);
    var sendbuf := CLEARED;
    if receives[0].Reply? {
      sendbuf := receives[0].header;
    }
    if sendbuf != Header(SEND_FILEMSG_REQ, ACK_OK) {
      RunStopped(src, hash, receives, 1);
      return sent, Some(Refused), 0;
    }
    if !src.opens {
      RunStopped(src, hash, receives, 1);
      return sent, Some(Unopened), -1;
    }
    var index, at := 0, Min(BUF_MAX_LEN, |src.contents|);
    var chunk := src.contents[..at];
    if |chunk| == 0 {
      RunStopped(src, hash, receives, 1);
      return sent, Some(NothingToSend), -1;
    }
    var recvbuf, n := CLEARED, 1;
    while true
      invariant 1 <= n <= |receives|
      invariant at == Min(BUF_MAX_LEN * (index + 1), |src.contents|) && chunk == ChunkAt(src.contents, index)
      invariant Run(src, hash, receives[..n]).0 == Client(AwaitChunk, recvbuf, index)
      invariant Run(src, hash, receives[..n]).1 == sent + [ChunkMessage(src, index)]
      decreases |receives| - n
    {
      sent := sent + [Chunk(REQ_NORE, chunk, index)];
      if n == |receives| {
        return sent, None, 0;
      }
      RunSnoc(src, hash, receives, n);
      if receives[n].Reply? {
        recvbuf := receives[n].header;
      }
      n := n + 1;
      if recvbuf == Header(SEND_FILE, ACK_OK) {
        var from := at;
        at := Min(at + BUF_MAX_LEN, |src.contents|);
        NextRead(src.contents, index);
        if at == from {
          break;
        }
        chunk, index := src.contents[from..at], index + 1;
      } else if recvbuf.kind == ACK_NOSP {
        RunStopped(src, hash, receives, n);
        return sent, Some(NoSpace), -1;
      } else {
        sent := sent + [Chunk(REQ_NORE, chunk, index)];
      }
    }
    sent := sent + [Finish(REQ_NOR)];
    if n == |receives| {
      return sent, None, 0;
    }
    RunSnoc(src, hash, receives, n);
    sendbuf := Header(SEND_FINISH, REQ_NOR);
    if receives[n].Reply? {
      sendbuf := receives[n].header;
    }
    RunStopped(src, hash, receives, n + 1);
    if sendbuf == Header(SEND_FINISH, ACK_OK) {
      return sent, Some(Confirmed), 0;
    }
    return sent, Some(Failed), 0;
  }

  // A read takes up where the one before it stopped.
  lemma NextRead(f: File, i: nat)
    ensures ChunkAt(f, 0) == f[..Min(BUF_MAX_LEN, |f|)]
    ensures
      var at := Min(BUF_MAX_LEN * (i + 1), |f|);
      var end := Min(at + BUF_MAX_LEN, |f|);
      at <= end <= |f| && end == Min(BUF_MAX_LEN * (i + 2), |f|) && ChunkAt(f, i + 1) == f[at..end]
  {
  }
}
