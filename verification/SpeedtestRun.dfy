// One test of netspeed/speedtest.py as a program: the atomic pieces of its threads, and a run under any scheduler.
module SpeedtestRun {

  import opened Wrappers
  import opened SpeedtestQueue

  class Test {
    const setup: Setup
    var started: nat
    var putting: bool
    var queue: seq<nat>
    var done: map<nat, int>
    var held: Option<nat>
    var finished: seq<int>

    function Now(): State
      reads this
    {
      State(started, putting, queue, done, held, finished)
    }

    constructor (setup: Setup)
      ensures this.setup == setup && Now() == INITIAL
    {
      this.setup := setup;
      started, putting, queue, done, held, finished := 0, false, [], map[], None, [];
    }

    // thread.start() of the producer.
    method StartThread()
      requires Enabled(setup, Now(), Start)
      modifies this
      ensures Now() == Next(setup, old(Now()), Start)
    {
      started := started + 1;
      putting := true;
    }

    // q.put(thread, True), once the queue has room.
    method PutThread()
      requires Enabled(setup, Now(), Put)
      modifies this
      ensures Now() == Next(setup, old(Now()), Put)
    {
      queue := queue + [started - 1];
      putting := false;
    }

    // A worker ends.
    method EndThread(i: nat, result: int)
      requires Enabled(setup, Now(), End(i, result))
      modifies this
      ensures Now() == Next(setup, old(Now()), End(i, result))
    {
      done := done[i := result];
    }

    // q.get(True), once the queue has a thread.
    method GetThread()
      requires Enabled(setup, Now(), Get)
      modifies this
      ensures Now() == Next(setup, old(Now()), Get)
    {
      held := Some(queue[0]);
      queue := queue[1..];
    }

    // finished.append(thread.result), once the thread is joined.
    method RecordResult()
      requires Enabled(setup, Now(), Record)
      modifies this
      ensures Now() == Next(setup, old(Now()), Record)
    {
      finished := finished + [done[held.value]];
      held := None;
    }

    // Whatever the scheduler picks among what can happen next, the test ends with every result in request order.
    method Run(pick: State -> Event)
      requires Now() == INITIAL && Balanced(setup)
      requires forall s | CanStep(setup, s) :: Enabled(setup, s, pick(s))
      modifies this
      ensures Final(setup, Now()) && |finished| == setup.count
      ensures forall i | 0 <= i < setup.count :: i in done && finished[i] == done[i]
    {
      ReachableInitial(setup);
      hide Inv, Final, Next, Enabled, CanStep, Remaining, Balanced;
      ReachableInv(setup, Now());
      RemainingNat(setup, Now());
      while !Final(setup, Now())
        invariant Reachable(setup, Now()) && Inv(setup, Now()) && Remaining(setup, Now()) >= 0
        decreases Remaining(setup, Now())
      {
        Progress(setup, Now());
        var e := pick(Now());
        StepDecreases(setup, Now(), e);
        Keeps(setup, Now(), e);
        ReachableNext(setup, Now(), e);
        RemainingNat(setup, Next(setup, Now(), e));
        match e {
          case Start => StartThread();
          case Put => PutThread();
          case End(i, result) => EndThread(i, result);
          case Get => GetThread();
          case Record => RecordResult();
        }
      }
      FinalInOrder(setup, Now());
    }
  }
}
