// How often sendfile of filesend/udpfilesend/udp-client.c sends each chunk, and what it returns.
module UdpRetries {

  import opened TransferFiles
  import opened UdpServer
  import opened UdpClient

  // The header that recvbuf holds after these returns of recvfrom: that of the last reply, zero before the first.
  function Heard(receives: seq<Receive>): Header {
    if receives == [] then Header(0, 0)
    else if receives[|receives| - 1].Reply? then receives[|receives| - 1].header
    else Heard(receives[..|receives| - 1])
  }

  // The n-th return of recvfrom is taken while chunk k waits for its ack, and recvbuf then holds neither the ack of
  // a chunk nor a report of no space.
  predicate Retries(src: Source, hash: Hash, receives: seq<Receive>, n: nat, k: nat)
    requires 0 < n < |receives|
  {
    var c := Run(src, hash, receives[..n]).0;
    var h := Heard(receives[1..n + 1]);
    c.phase == AwaitChunk && c.index == k && h != Header(2, 1) && h.kind != 3
  }

  function RetryCount(src: Source, hash: Hash, receives: seq<Receive>, k: nat): nat
    decreases |receives|
  {
    if |receives| <= 1 then 0
    else
      var n := |receives| - 1;
      RetryCount(src, hash, receives[..n], k) + if Retries(src, hash, receives, n, k) then 1 else 0
  }

  // How many datagrams carry chunk k.
  function Copies(sent: seq<Message>, k: nat): nat {
    if sent == [] then 0
    else
      var last := sent[|sent| - 1];
      Copies(sent[..|sent| - 1], k) + if last.Chunk? && last.index == k then 1 else 0
  }

  lemma {:induction false} CopiesConcat(s: seq<Message>, t: seq<Message>, k: nat)
    ensures Copies(s + t, k) == Copies(s, k) + Copies(t, k)
    decreases |t|
  {
    if t == [] {
      assert s + t == s;
    } else {
      var n := |t| - 1;
      CopiesConcat(s, t[..n], k);
      assert (s + t)[..|s| + n] == s + t[..n];
    }
  }

  // Chunk k has been sent.
  predicate Reached(c: Client, k: nat) {
    c.phase in {AwaitChunk, AwaitVerdict, Stopped(NoSpace), Stopped(Confirmed), Stopped(Failed)} && k <= c.index
  }

  // What the sender's state says about the returns of recvfrom that led to it.
  ghost predicate History(src: Source, receives: seq<Receive>, c: Client) {
    && (receives == [] <==> c.phase == AwaitOpen)
    && (receives != [] ==> (c.phase == Stopped(Refused) <==> receives[0] != Reply(Header(1, 1))))
    && (c.phase == Stopped(Unopened) ==> !src.opens)
    && (c.phase == Stopped(NothingToSend) ==> src.contents == [])
    && (Reached(c, 0) ==> src.opens && src.contents != [])
    && (c.phase == AwaitOpen ==> c == START)
    && (c.phase == AwaitChunk ==> receives != [] && c.recv == Heard(receives[1..]) && c.recv.kind != 3)
  }

  lemma StepHistory(src: Source, receives: seq<Receive>, c: Client, r: Receive)
    requires History(src, receives, c)
    ensures History(src, receives + [r], Step(src, c, r).0)
  {
    var more := receives + [r];
    assert more[..|receives|] == receives;
    if receives != [] {
      assert more[1..][..|receives| - 1] == receives[1..];
    } else {
      assert more[1..] == [];
    }
  }

  lemma {:induction false} RunHistory(src: Source, hash: Hash, receives: seq<Receive>)
    ensures History(src, receives, Run(src, hash, receives).0)
    decreases |receives|
  {
    hide History, Step;
    if receives == [] {
      StartHistory(src);
    } else {
      var n := |receives| - 1;
      RunHistory(src, hash, receives[..n]);
      StepHistory(src, receives[..n], Run(src, hash, receives[..n]).0, receives[n]);
      assert receives[..n] + [receives[n]] == receives;
    }
  }

  lemma StartHistory(src: Source)
    ensures History(src, [], START)
  {
  }

  // What one return of recvfrom adds to the copies of chunk k.
  lemma StepCopies(src: Source, receives: seq<Receive>, c: Client, r: Receive, k: nat)
    requires History(src, receives, c)
    ensures
      var (c', more) := Step(src, c, r);
      var h := Heard((receives + [r])[1..]);
      var again := c.phase == AwaitChunk && c.index == k && h != Header(2, 1) && h.kind != 3;
      && Copies(more, k) == (if Reached(c', k) && !Reached(c, k) then 1 else 0) + (if again then 2 else 0)
      && (Reached(c, k) || again ==> Reached(c', k)) && (again ==> Reached(c, k))
  {
    hide ChunkAt;
    var more := receives + [r];
    if receives != [] {
      assert more[1..][..|receives| - 1] == receives[1..];
    } else {
      assert more[1..] == [];
    }
    TwoCopies(ChunkMessage(src, c.index), k);
    TwoCopies(ChunkMessage(src, c.index + 1), k);
    TwoCopies(Finish(REQ_NOR), k);
    TwoCopies(ChunkMessage(src, 0), k);
  }

  lemma TwoCopies(m: Message, k: nat)
    ensures
      var one := if m.Chunk? && m.index == k then 1 else 0;
      Copies([], k) == 0 && Copies([m], k) == one && Copies([m, m], k) == 2 * one
  {
    assert [m][..0] == [] && [m, m][..1] == [m];
  }

  // Every chunk that is sent at all is sent once, and twice more for each return of recvfrom that makes it fail.
  lemma {:induction false} CopiesAre(src: Source, hash: Hash, receives: seq<Receive>, k: nat)
    ensures
      var (c, sent) := Run(src, hash, receives);
      && Copies(sent, k) == (if Reached(c, k) then 1 else 0) + 2 * RetryCount(src, hash, receives, k)
      && (Copies(sent, k) > 0 <==> Reached(c, k))
    decreases |receives|
  {
    hide Step, Reached, Retries, Heard, History;
    if receives == [] {
      StartCopies(src, hash, k);
    } else {
      var n := |receives| - 1;
      var (c, sent) := Run(src, hash, receives[..n]);
      var (c', more) := Step(src, c, receives[n]);
      CopiesAre(src, hash, receives[..n], k);
      RunHistory(src, hash, receives[..n]);
      StepCopies(src, receives[..n], c, receives[n], k);
      CopiesConcat(sent, more, k);
      RetriesAre(src, hash, receives, k);
    }
  }

  lemma StartCopies(src: Source, hash: Hash, k: nat)
    ensures Copies([Announcement(src, hash)], k) == 0 && !Reached(START, k)
  {
    TwoCopies(Announcement(src, hash), k);
  }

  lemma RetriesAre(src: Source, hash: Hash, receives: seq<Receive>, k: nat)
    requires receives != []
    ensures
      var n := |receives| - 1;
      var c, h := Run(src, hash, receives[..n]).0, Heard((receives[..n] + [receives[n]])[1..]);
      RetryCount(src, hash, receives, k) == RetryCount(src, hash, receives[..n], k)
        + if c.phase == AwaitChunk && c.index == k && h != Header(2, 1) && h.kind != 3 then 1 else 0
  {
    hide Heard, Run;
    var n := |receives| - 1;
    assert receives[..n] + [receives[n]] == receives;
    if n == 0 {
      RunNone(src, hash, receives);
    } else {
      assert receives[1..n + 1] == receives[1..];
    }
  }

  // ----- What sendfile returns

  // A reply that reports no space, while a chunk waits for its ack.
  ghost predicate NoSpaceHeard(src: Source, hash: Hash, receives: seq<Receive>) {
    exists n: nat ::
      && n < |receives| && Run(src, hash, receives[..n]).0.phase == AwaitChunk
      && receives[n].Reply? && receives[n].header.kind == 3
  }

  lemma NoSpaceNext(src: Source, hash: Hash, receives: seq<Receive>)
    requires receives != []
    ensures
      var k := |receives| - 1;
      NoSpaceHeard(src, hash, receives) <==>
        || NoSpaceHeard(src, hash, receives[..k])
        || (Run(src, hash, receives[..k]).0.phase == AwaitChunk && receives[k].Reply? && receives[k].header.kind == 3)
  {
    hide Run;
    var k, front := |receives| - 1, receives[..|receives| - 1];
    if NoSpaceHeard(src, hash, front) {
      var n: nat :| n < k && Run(src, hash, front[..n]).0.phase == AwaitChunk
        && front[n].Reply? && front[n].header.kind == 3;
      assert receives[..n] == front[..n];
    }
    if NoSpaceHeard(src, hash, receives) {
      var n: nat :| n < |receives| && Run(src, hash, receives[..n]).0.phase == AwaitChunk
        && receives[n].Reply? && receives[n].header.kind == 3;
      if n < k {
        assert receives[..n] == front[..n];
      }
    }
  }

  lemma {:induction false} NoSpaceIff(src: Source, hash: Hash, receives: seq<Receive>)
    ensures Run(src, hash, receives).0.phase == Stopped(NoSpace) <==> NoSpaceHeard(src, hash, receives)
    decreases |receives|
  {
    if receives != [] {
      var k := |receives| - 1;
      NoSpaceIff(src, hash, receives[..k]);
      NoSpaceNext(src, hash, receives);
      RunHistory(src, hash, receives[..k]);
    }
  }

  // The status is -1 exactly when the announcement is acknowledged, and the source does not open, is empty, or meets
  // with no space.
  lemma MinusOneIff(src: Source, hash: Hash, receives: seq<Receive>)
    ensures
      var c := Run(src, hash, receives).0;
      c.phase.Stopped? && StatusOf(c.phase.result) == -1 <==>
        && receives != [] && receives[0] == Reply(Header(1, 1))
        && (!src.opens || src.contents == [] || NoSpaceHeard(src, hash, receives))
  {
    hide Run, NoSpaceHeard;
    var c := Run(src, hash, receives).0;
    RunHistory(src, hash, receives);
    NoSpaceIff(src, hash, receives);
    match c.phase
    case AwaitOpen =>
    case AwaitChunk => assert Reached(c, 0);
    case AwaitVerdict => assert Reached(c, 0);
    case Stopped(r) =>
      assert StatusOf(r) == -1 <==> r == NoSpace || r == Unopened || r == NothingToSend;
      assert r == NoSpace || r == Confirmed || r == Failed ==> Reached(c, 0);
  }

  // "file send is ok" exactly when the reply to FINISH says so.
  lemma {:induction false} ConfirmedIff(src: Source, hash: Hash, receives: seq<Receive>)
    ensures Run(src, hash, receives).0.phase == Stopped(Confirmed) <==> VerdictHeard(src, hash, receives)
    decreases |receives|
  {
    if receives != [] {
      var k := |receives| - 1;
      ConfirmedIff(src, hash, receives[..k]);
      VerdictNext(src, hash, receives);
    }
  }

  ghost predicate VerdictHeard(src: Source, hash: Hash, receives: seq<Receive>) {
    exists n: nat ::
      n < |receives| && Run(src, hash, receives[..n]).0.phase == AwaitVerdict && receives[n] == Reply(Header(3, 1))
  }

  lemma VerdictNext(src: Source, hash: Hash, receives: seq<Receive>)
    requires receives != []
    ensures
      var k := |receives| - 1;
      VerdictHeard(src, hash, receives) <==>
        || VerdictHeard(src, hash, receives[..k])
        || (Run(src, hash, receives[..k]).0.phase == AwaitVerdict && receives[k] == Reply(Header(3, 1)))
  {
    hide Run;
    var k, front := |receives| - 1, receives[..|receives| - 1];
    if VerdictHeard(src, hash, front) {
      var n: nat :| n < k && Run(src, hash, front[..n]).0.phase == AwaitVerdict && front[n] == Reply(Header(3, 1));
      assert receives[..n] == front[..n];
    }
    if VerdictHeard(src, hash, receives) {
      var n: nat :|
        n < |receives| && Run(src, hash, receives[..n]).0.phase == AwaitVerdict && receives[n] == Reply(Header(3, 1));
      if n < k {
        assert receives[..n] == front[..n];
      }
    }
  }
}
