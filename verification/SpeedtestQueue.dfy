// The producer and the consumer of Speedtest.download and Speedtest.upload in netspeed/speedtest.py,
// interleaved with the worker threads around their bounded queue.
module SpeedtestQueue {

  import opened Wrappers

  // requests threads to start, count results to wait for, and the queue's maxsize, where 0 or less means no bound.
  datatype Setup = Setup(requests: nat, count: nat, maxsize: int)

  // started: threads started; putting: the last of them is not in the queue yet; done: results of the workers that
  // have ended; held: the thread that the consumer joins; finished: the results recorded.
  datatype State = State(
    started: nat, putting: bool, queue: seq<nat>, done: map<nat, int>, held: Option<nat>, finished: seq<int>)

  datatype Event = Start | Put | End(worker: nat, result: int) | Get | Record

  const INITIAL: State := State(0, false, [], map[], None, [])

  predicate Enabled(u: Setup, s: State, e: Event) {
    match e
    case Start => !s.putting && s.started < u.requests
    case Put => s.putting && s.started > 0 && (u.maxsize <= 0 || |s.queue| < u.maxsize)
    case End(i, _) => i < s.started && i !in s.done
    case Get => s.held.None? && |s.finished| < u.count && s.queue != []
    case Record => s.held.Some? && s.held.value in s.done
  }

  function Next(u: Setup, s: State, e: Event): State
    requires Enabled(u, s, e)
  {
    match e
    case Start => s.(started := s.started + 1, putting := true)
    case Put => s.(putting := false, queue := s.queue + [s.started - 1])
    case End(i, r) => s.(done := s.done[i := r])
    case Get => s.(held := Some(s.queue[0]), queue := s.queue[1..])
    case Record => s.(held := None, finished := s.finished + [s.done[s.held.value]])
  }

  // Both loops have ended.
  predicate Final(u: Setup, s: State) {
    s.started == u.requests && !s.putting && s.held.None? && |s.finished| >= u.count
  }

  ghost predicate CanStep(u: Setup, s: State) {
    exists e :: Enabled(u, s, e)
  }

  ghost predicate Leads(u: Setup, s: State, events: seq<Event>, z: State)
    decreases |events|
  {
    if events == [] then z == s
    else Enabled(u, s, events[0]) && Leads(u, Next(u, s, events[0]), events[1..], z)
  }

  ghost predicate Reachable(u: Setup, z: State) {
    exists events :: Leads(u, INITIAL, events, z)
  }

  // ----- The invariant

  function Held(s: State): nat {
    if s.held.Some? then 1 else 0
  }

  function Putting(s: State): nat {
    if s.putting then 1 else 0
  }

  // The threads are, in order: recorded, held, queued, being put.
  ghost predicate Inv(u: Setup, s: State) {
    && |s.finished| + Held(s) + |s.queue| + Putting(s) == s.started <= u.requests
    && |s.finished| + Held(s) <= u.count
    && (s.held.Some? ==> s.held.value == |s.finished|)
    && (forall i | 0 <= i < |s.queue| :: s.queue[i] == |s.finished| + Held(s) + i)
    && (u.maxsize > 0 ==> |s.queue| <= u.maxsize)
    && (forall i | 0 <= i < |s.finished| :: i in s.done && s.done[i] == s.finished[i])
    && (forall i | i in s.done :: i < s.started)
  }

  lemma Keeps(u: Setup, s: State, e: Event)
    requires Inv(u, s) && Enabled(u, s, e)
    ensures Inv(u, Next(u, s, e))
  {
  }

  // ----- Every run is finite

  // The steps that a run can still take.
  function Remaining(u: Setup, s: State): int {
    (u.requests - s.started) + (u.requests - s.started + Putting(s)) + (u.requests - |s.done|)
    + (u.count - |s.finished| - Held(s)) + (u.count - |s.finished|)
  }

  lemma {:induction false} CountBelow(keys: set<nat>, n: nat)
    requires forall i | i in keys :: i < n
    ensures |keys| <= n
  {
    if n == 0 {
      assert keys == {};
    } else {
      CountBelow(keys - {n - 1}, n - 1);
      assert keys <= (keys - {n - 1}) + {n - 1};
    }
  }

  lemma KeysBelow(m: map<nat, int>, n: nat)
    requires forall i | i in m :: i < n
    ensures |m| <= n
  {
    CountBelow(m.Keys, n);
    assert |m| == |m.Keys|;
  }

  lemma StepDecreases(u: Setup, s: State, e: Event)
    requires Inv(u, s) && Enabled(u, s, e)
    ensures Remaining(u, s) > 0 && Remaining(u, Next(u, s, e)) == Remaining(u, s) - 1
  {
    Keeps(u, s, e);
    var z := Next(u, s, e);
    KeysBelow(z.done, z.started);
    if e.End? {
      assert z.done.Keys == s.done.Keys + {e.worker};
      assert |z.done| == |s.done| + 1;
    }
  }

  // Every interleaving keeps the invariant and takes at most 3 * requests + 2 * count steps.
  lemma {:induction false} RunKeeps(u: Setup, s: State, events: seq<Event>, z: State)
    requires Inv(u, s) && Leads(u, s, events, z)
    ensures Inv(u, z) && Remaining(u, z) == Remaining(u, s) - |events| && Remaining(u, z) >= 0
    decreases |events|
  {
    hide Inv, Remaining, Enabled;
    if events == [] {
      RemainingNat(u, s);
    } else {
      Keeps(u, s, events[0]);
      StepDecreases(u, s, events[0]);
      RunKeeps(u, Next(u, s, events[0]), events[1..], z);
    }
  }

  lemma RemainingNat(u: Setup, s: State)
    requires Inv(u, s)
    ensures Remaining(u, s) >= 0
  {
    KeysBelow(s.done, s.started);
  }

  lemma ReachableInv(u: Setup, z: State)
    requires Reachable(u, z)
    ensures Inv(u, z)
  {
    var events :| Leads(u, INITIAL, events, z);
    RunKeeps(u, INITIAL, events, z);
  }

  lemma RunBound(u: Setup, events: seq<Event>, z: State)
    requires Leads(u, INITIAL, events, z)
    ensures |events| <= 3 * u.requests + 2 * u.count
  {
    RunKeeps(u, INITIAL, events, z);
  }

  // At most maxsize + 2 threads are started and not recorded: one being put, maxsize queued, one joined.
  lemma FewInFlight(u: Setup, z: State)
    requires Reachable(u, z) && u.maxsize > 0
    ensures z.started - |z.finished| <= u.maxsize + 2
  {
    ReachableInv(u, z);
  }

  // One thread joined and n queued.
  lemma {:induction false} QueueFilled(u: Setup, n: nat) returns (z: State)
    requires u.count > 0 && n < u.requests && (u.maxsize <= 0 || n <= u.maxsize)
    ensures Reachable(u, z) && Inv(u, z)
    ensures z.held == Some(0) && z.finished == [] && |z.queue| == n && z.started == n + 1 && !z.putting
  {
    if n == 0 {
      ReachableInitial(u);
      z := Performed(u, INITIAL, Start);
      z := Performed(u, z, Put);
      z := Performed(u, z, Get);
    } else {
      z := QueueFilled(u, n - 1);
      z := Performed(u, z, Start);
      z := Performed(u, z, Put);
    }
  }

  // And so many there can be.
  lemma ManyInFlight(u: Setup) returns (z: State)
    requires u.maxsize > 0 && u.count > 0 && u.requests >= u.maxsize + 2
    ensures Reachable(u, z) && z.started - |z.finished| == u.maxsize + 2
  {
    z := QueueFilled(u, u.maxsize);
    z := Performed(u, z, Start);
  }

  // The results come in the order of the requests, whatever the order in which the workers end.
  lemma FinalInOrder(u: Setup, z: State)
    requires Reachable(u, z) && Final(u, z)
    ensures |z.finished| == u.count <= u.requests
    ensures forall i | 0 <= i < u.count :: i in z.done && z.finished[i] == z.done[i]
  {
    ReachableInv(u, z);
  }

  // ----- No interleaving is stuck before both loops have ended, exactly when ...

  // ... there are results enough for the consumer, and the queue has room for the threads it leaves there.
  predicate Balanced(u: Setup) {
    u.count <= u.requests && (u.maxsize <= 0 || u.requests - u.count <= u.maxsize)
  }

  lemma Progress(u: Setup, s: State)
    requires Inv(u, s) && Balanced(u) && !Final(u, s)
    ensures CanStep(u, s)
  {
    if s.held.Some? {
      if s.held.value in s.done {
        assert Enabled(u, s, Record);
      } else {
        assert Enabled(u, s, End(s.held.value, 0));
      }
    } else if |s.finished| < u.count && s.queue != [] {
      assert Enabled(u, s, Get);
    } else if s.putting {
      assert Enabled(u, s, Put);
    } else {
      assert Enabled(u, s, Start);
    }
  }

  lemma {:induction false} LeadsSnoc(u: Setup, s: State, events: seq<Event>, y: State, e: Event)
    requires Leads(u, s, events, y) && Enabled(u, y, e)
    ensures Leads(u, s, events + [e], Next(u, y, e))
    decreases |events|
  {
    hide Enabled;
    if events == [] {
      assert Leads(u, Next(u, y, e), [e][1..], Next(u, y, e));
      assert events + [e] == [e];
    } else {
      LeadsSnoc(u, Next(u, s, events[0]), events[1..], y, e);
      assert (events + [e])[1..] == events[1..] + [e];
    }
  }

  lemma ReachableNext(u: Setup, y: State, e: Event)
    requires Reachable(u, y) && Enabled(u, y, e)
    ensures Reachable(u, Next(u, y, e))
  {
    hide Enabled, Next;
    var events :| Leads(u, INITIAL, events, y);
    LeadsSnoc(u, INITIAL, events, y, e);
  }

  lemma ReachableInitial(u: Setup)
    ensures Reachable(u, INITIAL)
  {
    assert Leads(u, INITIAL, [], INITIAL);
  }

  // Every worker that was started has ended, and k results are recorded; the others are queued.
  ghost predicate Quiet(s: State, k: nat) {
    && s.held.None? && |s.finished| == k && (forall i | 0 <= i < s.started :: i in s.done)
  }

  // One thread started, ended and put at a time, and recorded while the consumer still wants results.
  lemma {:induction false} QuietRun(u: Setup, n: nat) returns (z: State)
    requires n <= u.requests && (u.maxsize <= 0 || n <= u.count + u.maxsize)
    ensures Reachable(u, z) && Quiet(z, if n <= u.count then n else u.count) && z.started == n && !z.putting
  {
    if n == 0 {
      ReachableInitial(u);
      return INITIAL;
    }
    z := QuietRun(u, n - 1);
    ReachableInv(u, z);
    z := Performed(u, z, Start);
    z := Performed(u, z, End(n - 1, 0));
    z := Performed(u, z, Put);
    if n <= u.count {
      z := Performed(u, z, Get);
      z := Performed(u, z, Record);
    }
  }

  lemma Performed(u: Setup, y: State, e: Event) returns (z: State)
    requires Reachable(u, y) && Enabled(u, y, e) && Inv(u, y)
    ensures z == Next(u, y, e) && Reachable(u, z) && Inv(u, z)
  {
    z := Next(u, y, e);
    ReachableNext(u, y, e);
    Keeps(u, y, e);
  }

  // Too few requests: the consumer waits for ever. Too many: the producer does.
  lemma StuckRun(u: Setup) returns (z: State)
    requires !Balanced(u)
    ensures Reachable(u, z) && !CanStep(u, z) && !Final(u, z)
  {
    if u.count > u.requests {
      z := QuietRun(u, u.requests);
    } else {
      z := QuietRun(u, u.count + u.maxsize);
      ReachableInv(u, z);
      z := Performed(u, z, Start);
      z := Performed(u, z, End(u.count + u.maxsize, 0));
    }
    ReachableInv(u, z);
  }

  // In every interleaving no state is stuck before the end, exactly when the counts balance.
  lemma NeverStuckIff(u: Setup)
    ensures (forall z | Reachable(u, z) && !CanStep(u, z) :: Final(u, z)) <==> Balanced(u)
  {
    if Balanced(u) {
      forall z | Reachable(u, z) && !CanStep(u, z)
        ensures Final(u, z)
      {
        ReachableInv(u, z);
        if !Final(u, z) {
          Progress(u, z);
        }
      }
    } else {
      var z := StuckRun(u);
    }
  }
}
