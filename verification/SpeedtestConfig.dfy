// The upload plan of netspeed/speedtest.py: get_config computes it, Speedtest.upload lays it out as requests.
module SpeedtestConfig {

  import Md5Words
  import opened Wrappers
  import opened SpeedtestQueue

  const UP_SIZES: seq<nat> := [32768, 65536, 131072, 262144, 524288, 1048576, 7340032]

  // 32 KiB, doubled up to 1 MiB, and 7 MiB.
  lemma UpSizes()
    ensures |UP_SIZES| == 7 && UP_SIZES[0] == 32 * 1024 && UP_SIZES[6] == 7 * 1024 * 1024
    ensures forall i | 0 < i < 6 :: UP_SIZES[i] == 2 * UP_SIZES[i - 1]
  {
  }

  datatype Plan = Plan(sizes: seq<nat>, count: int, uploadMax: int)

  // s[start:] of Python: a negative start counts from the end, and either end is clipped.
  function SliceFrom<T>(s: seq<T>, start: int): seq<T> {
    var from := if start < 0 then start + |s| else start;
    if from < 0 then s else if from > |s| then [] else s[from..]
  }

  // s[:end] of Python.
  function SliceTo<T>(s: seq<T>, end: int): seq<T> {
    var to := if end < 0 then end + |s| else end;
    if to < 0 then [] else if to > |s| then s else s[..to]
  }

  lemma SliceToIff<T>(s: seq<T>, end: int)
    ensures SliceTo(s, end) == s <==> s == [] || end >= |s|
    ensures |SliceTo(s, end)| <= |s| && SliceTo(s, end) == s[..|SliceTo(s, end)|]
    ensures 0 <= end <= |s| ==> |SliceTo(s, end)| == end
  {
  }

  // math.ceil(a / b): / is exact in Python 3 and rounds down in Python 2.
  function CeilOfQuotient(a: int, b: nat, python3: bool): int
    requires b > 0
  {
    if python3 then -((-a) / b) else a / b
  }

  // No plan where size_count is zero: the division raises an exception.
  function UploadPlan(ratio: int, maxchunkcount: int, python3: bool): (p: Option<Plan>)
    ensures p.None? <==> ratio > 7
    ensures p.Some? ==>
      && 1 <= |p.value.sizes| <= 7 && p.value.uploadMax == p.value.count * |p.value.sizes|
      && p.value.sizes == UP_SIZES[|UP_SIZES| - |p.value.sizes|..]
      && |p.value.sizes| == if ratio >= 1 then 8 - ratio else if ratio >= -6 then 1 - ratio else 7
  {
    var sizes := SliceFrom(UP_SIZES, ratio - 1);
    if sizes == [] then None
    else
      var count := CeilOfQuotient(maxchunkcount, |sizes|, python3);
      Some(Plan(sizes, count, count * |sizes|))
  }

  // The number of requests is the configured one rounded to a multiple of the number of sizes, up or down.
  lemma PlannedRequests(ratio: int, maxchunkcount: int, python3: bool)
    requires ratio <= 7
    ensures
      var p := UploadPlan(ratio, maxchunkcount, python3).value;
      if python3 then maxchunkcount <= p.uploadMax < maxchunkcount + |p.sizes|
      else maxchunkcount - |p.sizes| < p.uploadMax <= maxchunkcount
  {
    var n := |SliceFrom(UP_SIZES, ratio - 1)|;
    Rounded(maxchunkcount, n);
    Rounded(-maxchunkcount, n);
    var q := (-maxchunkcount) / n;
    assert (-q) * n == -(q * n);
  }

  lemma Rounded(a: int, b: nat)
    requires b > 0
    ensures a - b < (a / b) * b <= a
  {
    assert a == (a / b) * b + a % b;
  }

  // range(0, count) is empty when count is negative.
  function Times(count: int): nat {
    if count < 0 then 0 else count
  }

  // Every size k times, in order.
  function Laid(sizes: seq<nat>, k: nat): seq<nat> {
    if sizes == [] then [] else Laid(sizes[..|sizes| - 1], k) + seq(k, _ => sizes[|sizes| - 1])
  }

  lemma LaidSnoc(sizes: seq<nat>, k: nat, n: nat)
    requires n < |sizes|
    ensures Laid(sizes[..n + 1], k) == Laid(sizes[..n], k) + seq(k, _ => sizes[n])
  {
    assert sizes[..n + 1][..n] == sizes[..n];
  }

  // The two nested loops.
  method LayOut(sizes: seq<nat>, count: int) returns (r: seq<nat>)
    ensures r == Laid(sizes, Times(count))
  {
    r := [];
    var n := 0;
    while n < |sizes|
      invariant 0 <= n <= |sizes| && r == Laid(sizes[..n], Times(count))
    {
      ghost var before := r;
      var k := 0;
      while k < count
        invariant 0 <= k <= Times(count) && r == before + seq(k, _ => sizes[n])
      {
        r := r + [sizes[n]];
        k := k + 1;
      }
      LaidSnoc(sizes, Times(count), n);
      n := n + 1;
    }
    assert sizes[..n] == sizes;
  }

  lemma {:induction false} LaidLength(sizes: seq<nat>, k: nat)
    ensures |Laid(sizes, k)| == |sizes| * k
  {
    if sizes != [] {
      var n := |sizes| - 1;
      LaidLength(sizes[..n], k);
      assert (n + 1) * k == n * k + k;
    }
  }

  // Request i carries the size number i / k.
  lemma {:induction false} LaidAt(sizes: seq<nat>, k: nat, i: nat)
    requires i < |sizes| * k
    ensures k > 0 && i / k < |sizes| && |Laid(sizes, k)| == |sizes| * k && Laid(sizes, k)[i] == sizes[i / k]
  {
    var n := |sizes| - 1;
    LaidLength(sizes, k);
    LaidLength(sizes[..n], k);
    assert (n + 1) * k == n * k + k;
    if i < n * k {
      LaidAt(sizes[..n], k, i);
    } else {
      Md5Words.DivideUnique(i, k, n, i - n * k);
    }
  }

  // The slice to upload_max drops no request, and the counts balance for every queue.
  lemma NothingDropped<T>(ratio: int, maxchunkcount: int, python3: bool, requests: seq<T>, maxsize: int)
    requires ratio <= 7
    requires
      var p := UploadPlan(ratio, maxchunkcount, python3).value;
      |requests| == |Laid(p.sizes, Times(p.count))|
    ensures
      var p := UploadPlan(ratio, maxchunkcount, python3).value;
      SliceTo(requests, p.uploadMax) == requests
      && Balanced(Setup(|requests|, Times(p.uploadMax), maxsize))
  {
    hide UploadPlan;
    var p := UploadPlan(ratio, maxchunkcount, python3).value;
    LaidLength(p.sizes, Times(p.count));
    if p.count < 0 {
      Negative(p.count, |p.sizes|);
    }
  }

  lemma Negative(a: int, b: nat)
    requires a < 0 < b
    ensures a * b < 0
  {
  }
}
