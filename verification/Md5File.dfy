// MD5_file of md5/main.c: the read loop that feeds MD5Update.
module Md5File {

  import opened Md5Words
  import opened Md5Transform
  import opened Md5Digest
  import opened Md5Context

  // What one read returns; no bytes at end of file.
  datatype Read = Got(bytes: seq<uint8>) | Failed

  const BUF_SIZE: nat := 4096

  // A read result that ends the loop.
  predicate Stops(r: Read) {
    r.Failed? || r.bytes == []
  }

  // The bytes of the reads before the first one that stops.
  function BytesRead(results: seq<Read>): seq<uint8> {
    if results == [] || Stops(results[0]) then [] else results[0].bytes + BytesRead(results[1..])
  }

  // reads as a file of the given contents answers them from position at on, until a failure or its end.
  ghost predicate Answers(file: seq<uint8>, at: nat, results: seq<Read>, stop: nat)
    requires at <= |file|
    decreases |results|
  {
    results != [] &&
    match results[0]
    case Failed => stop == at
    case Got(bytes) =>
      if at == |file| || bytes == [] then bytes == [] && stop == at == |file|
      else at + |bytes| <= |file| && bytes == file[at..at + |bytes|] && Answers(file, at + |bytes|, results[1..], stop)
  }

  // Only where the reads stop matters, not how they cut the file; without a failure that is its end.
  lemma {:induction false} CutsDoNotMatter(file: seq<uint8>, at: nat, results: seq<Read>, stop: nat)
    requires at <= |file| && Answers(file, at, results, stop)
    ensures at <= stop <= |file| && BytesRead(results) == file[at..stop]
    ensures (forall r <- results :: r.Got?) ==> stop == |file|
    ensures exists i | 0 <= i < |results| :: Stops(results[i])
    decreases |results|
  {
    if !Stops(results[0]) {
      var n := |results[0].bytes|;
      CutsDoNotMatter(file, at + n, results[1..], stop);
      assert file[at..stop] == file[at..at + n] + file[at + n..stop];
      var i :| 0 <= i < |results| - 1 && Stops(results[1..][i]);
      assert Stops(results[i + 1]);
    }
  }

  lemma {:induction false} BytesBefore(results: seq<Read>, n: nat)
    requires n < |results| && !Stops(results[n])
    requires forall i | 0 <= i < n :: !Stops(results[i])
    ensures BytesRead(results[..n + 1]) == BytesRead(results[..n]) + results[n].bytes
    decreases n
  {
    if n == 0 {
      assert results[..1][1..] == [];
    } else {
      BytesBefore(results[1..], n - 1);
      assert results[..n + 1][1..] == results[1..][..n] && results[..n][1..] == results[1..][..n - 1];
    }
  }

  lemma {:induction false} BytesUntil(results: seq<Read>, n: nat)
    requires n < |results| && Stops(results[n])
    requires forall i | 0 <= i < n :: !Stops(results[i])
    ensures BytesRead(results) == BytesRead(results[..n])
    decreases n
  {
    if n > 0 {
      BytesUntil(results[1..], n - 1);
      assert results[..n][1..] == results[1..][..n - 1];
    }
  }

  lemma NothingRead()
    ensures BytesRead([]) == []
  {
  }

  // The read loop over one 4096-byte buffer.
  method AbsorbReads(ctx: Context, results: seq<Read>)
    requires ctx.Valid() && ctx.absorbed == []
    requires forall i | 0 <= i < |results| && results[i].Got? :: |results[i].bytes| <= BUF_SIZE
    requires exists i | 0 <= i < |results| :: Stops(results[i])
    modifies ctx, ctx.count, ctx.state, ctx.buffer
    ensures ctx.Valid() && ctx.absorbed == BytesRead(results)
  {
    hide BytesRead, Counts, Blocks, StateOf, Tail, Complete;
    var buf := new uint8[BUF_SIZE](_ => 0);
    var n := 0;
    NothingRead();
    assert results[..0] == [];
    while !Stops(results[n])
      invariant 0 <= n < |results|
      invariant forall i | 0 <= i < n :: !Stops(results[i])
      invariant ctx.Valid() && ctx.absorbed == BytesRead(results[..n])
      decreases |results| - n
    {
      var bytes := results[n].bytes;
      forall k | 0 <= k < |bytes| {
        buf[k] := bytes[k];
      }
      ctx.Update(buf, |bytes|);
      BytesBefore(results, n);
      n := n + 1;
    }
    BytesUntil(results, n);
  }

  // -1 when the file does not open, else 0 with the digest of what was read, even when a read failed.
  method DigestFile(opens: bool, results: seq<Read>, output: array<uint8>) returns (status: int)
    requires forall i | 0 <= i < |results| && results[i].Got? :: |results[i].bytes| <= BUF_SIZE
    requires opens ==> exists i | 0 <= i < |results| :: Stops(results[i])
    requires output.Length == 16
    modifies output
    ensures !opens ==> status == -1 && output[..] == old(output[..])
    ensures opens ==> status == 0 && output[..] == Md5(BytesRead(results))
  {
    if !opens {
      return -1;
    }
    hide Md5, BytesRead, Counts, Blocks, StateOf, Tail, Complete, Pad;
    var ctx := new Context();
    ctx.Init();
    AbsorbReads(ctx, results);
    ctx.Final(output);
    status := 0;
  }
}
