// Sessions in which the announcement, too, may be delivered any number of times.
module UdpRepeats {

  import opened TransferFiles
  import opened UdpServer
  import opened UdpClient
  import opened UdpSession
  import opened UdpSafety
  import opened UdpPaths

  // n copies of s run together.
  function Repeated(s: string, n: nat): string {
    if n == 0 then "" else Repeated(s, n - 1) + s
  }

  // A publication of a file with the announced digest, under its name repeated once or more.
  ghost predicate Proper(hash: Hash, src: Source, p: Publication) {
    hash(p.content) == hash(src.contents) && exists n: nat :: n > 0 && p.path == Repeated(PathOf(src), n)
  }

  ghost predicate Appended(src: Source, s: Server, n: nat) {
    s.path == Repeated(PathOf(src), n) && s.back == Repeated(PartOf(src), n)
  }

  ghost predicate LooseInv(hash: Hash, src: Source, y: Session) {
    && Valid(y.server) && SentOnce(hash, src, y.sent)
    && (exists n: nat :: Appended(src, y.server, n))
    && (forall i | 0 <= i < |y.published| :: Proper(hash, src, y.published[i]))
    && (YES in y.replies ==> y.published != [])
    && (y.client.phase == Stopped(Confirmed) ==> YES in y.replies)
    && if y.announced then y.server.filemsg.md5 == hash(src.contents)
       else y.replies == [] && |y.sent| == 1 && y.client.phase in {AwaitOpen, Stopped(Refused)}
  }

  lemma LooseClient(hash: Hash, src: Source, y: Session, r: Receive)
    requires LooseInv(hash, src, y) && (r.Reply? ==> r.header in y.replies)
    ensures LooseInv(hash, src, ClientStep(src, y, r))
  {
    hide Valid, Proper, Appended;
    var more := Step(src, y.client, r).1;
    assert forall i | 0 <= i < |more| :: more[i] == Finish(REQ_NOR) || (more[i].Chunk? && more[i].kind == REQ_NORE);
  }

  lemma RepeatedEmpty(s: string, n: nat)
    requires s != ""
    ensures Repeated(s, n) == "" <==> n == 0
  {
  }

  lemma LooseAnnouncement(hash: Hash, src: Source, y: Session, o: Outcome)
    requires LooseInv(hash, src, y) && src.opens && Legal(y.server, y.sent[0], o)
    ensures LooseInv(hash, src, ServerStep(hash, y, y.sent[0], o))
  {
    hide Proper, Valid, Announced, PathOf, PartOf;
    var n: nat :| Appended(src, y.server, n);
    var z := ServerStep(hash, y, y.sent[0], o);
    AnnouncedPaths(hash, src, y.server, o.opens);
    assert Appended(src, z.server, n + 1);
  }

  lemma LooseChunk(hash: Hash, src: Source, y: Session, m: Message, o: Outcome)
    requires LooseInv(hash, src, y) && y.announced
    requires m.Chunk? && m.kind == REQ_NORE && Legal(y.server, m, o)
    ensures LooseInv(hash, src, ServerStep(hash, y, m, o))
  {
    hide Proper, Overlay;
    var n: nat :| Appended(src, y.server, n);
    var z := ServerStep(hash, y, m, o);
    ReceivedValid(y.server, m.bytes, o.written);
    assert Appended(src, z.server, if o.written == -1 then 0 else n);
  }

  lemma LooseFinish(hash: Hash, src: Source, y: Session, o: Outcome)
    requires LooseInv(hash, src, y) && y.announced && hash(src.contents) != NO_DIGEST
    ensures LooseInv(hash, src, ServerStep(hash, y, Finish(REQ_NOR), o))
  {
    var n: nat :| Appended(src, y.server, n);
    var z := ServerStep(hash, y, Finish(REQ_NOR), o);
    RepeatedEmpty(PathOf(src), n);
    RepeatedEmpty(PartOf(src), n);
    HandledValid(hash, y.server, Finish(REQ_NOR), o);
    assert Appended(src, z.server, 0);
    if Matches(hash, y.server) {
      assert Proper(hash, src, z.published[|y.published|]);
    }
  }

  lemma {:induction false} AlwaysLoose(hash: Hash, src: Source, y: Session, events: seq<Event>, z: Session)
    requires LooseInv(hash, src, y) && Leads(hash, src, y, events, z)
    requires src.opens && hash(src.contents) != NO_DIGEST
    ensures LooseInv(hash, src, z)
    decreases |events|
  {
    hide Proper, Appended, ServerStep, ClientStep, Valid;
    if events != [] {
      match events[0] {
        case ToServer(i, o) =>
          if i == 0 {
            LooseAnnouncement(hash, src, y, o);
          } else if y.sent[i].Chunk? {
            LooseChunk(hash, src, y, y.sent[i], o);
          } else {
            LooseFinish(hash, src, y, o);
          }
        case ToClient(j) => LooseClient(hash, src, y, Reply(y.replies[j]));
        case Expire => LooseClient(hash, src, y, Timeout);
      }
      AlwaysLoose(hash, src, Next(hash, src, y, events[0]), events[1..], z);
    }
  }

  // A sender that was told ok: a file with the announced digest was published.
  ghost predicate Honest(hash: Hash, src: Source, z: Session) {
    z.client.phase == Stopped(Confirmed) ==> exists i | 0 <= i < |z.published| :: Proper(hash, src, z.published[i])
  }

  // However often each datagram is delivered, "ok" is honest in every run under the same condition as before.
  lemma HonestIff(hash: Hash, src: Source)
    ensures (forall y, events, z | Starts(hash, src, y) && Leads(hash, src, y, events, z) :: Honest(hash, src, z))
      <==> !src.opens || src.contents == [] || hash(src.contents) != NO_DIGEST
  {
    hide Proper;
    if !src.opens || src.contents == [] {
      forall y, events, z | Starts(hash, src, y) && Leads(hash, src, y, events, z)
        ensures Honest(hash, src, z)
      {
        StaysIdle(hash, src, y, events, z);
      }
    } else if hash(src.contents) != NO_DIGEST {
      forall y, events, z | Starts(hash, src, y) && Leads(hash, src, y, events, z)
        ensures Honest(hash, src, z)
      {
        assert Appended(src, y.server, 0);
        AlwaysLoose(hash, src, y, events, z);
        assert z.published != [] ==> Proper(hash, src, z.published[0]);
      }
    } else {
      var y, events, z := ZeroDigestRun(hash, src);
      assert !Honest(hash, src, z);
    }
  }
}
