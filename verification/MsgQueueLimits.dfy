/** Runs that show where the guarantees of the message queue end. */
module MsgQueueLimits {
  import opened Common
  import opened UtilsQueue
  import opened MsgQueue
  import opened MsgQueueCalls

  const VALUE: Block := [7, 7]
  const PUT: PushArg := PushArg(VALUE, true, 0)

  /** A pop that waits, into a buffer of any size and into one that is too small. */
  const TAKE: PopArg := PopArg(None, 1)
  const TAKE_SMALL: PopArg := PopArg(Some(1), 1)

  function Empty(capacity: nat): Shared {
    Shared(None, capacity, [], true, 0, 0, [], [])
  }

  lemma Start(tasks: nat, capacity: nat) returns (run: seq<State>)
    requires capacity > 0
    ensures IsRun(run) && run == [State(seq(tasks, _ => Idle), Empty(capacity))]
  {
    run := [State(seq(tasks, _ => Idle), Empty(capacity))];
  }

  /** A consumer is left behind: it waits without a token although the queue is not empty, and no other
      task is in the middle of anything that could wake it. */
  predicate LeftBehind(s: State, b: nat) {
    && b < |s.pcs| && s.sh.lock.None? && s.sh.list != [] && WaitsForData(s, b)
    && s.sh.sendSem == 0 && TaskStep(s.sh, b, s.pcs[b], Go).Stuck?
    && forall j :: 0 <= j < |s.pcs| && j != b ==> s.pcs[j].Idle?
  }

  predicate ThreeOf(tasks: nat, a: nat, b: nat, p: nat) {
    a < tasks && b < tasks && p < tasks && a != b && a != p && b != p
  }

  /** Two consumers a and b wait and p pushes as many values as it is told. */
  lemma TwoWait(tasks: nat, capacity: nat, a: nat, b: nat, p: nat, arg: PopArg, twice: bool) returns (run: seq<State>)
    requires ThreeOf(tasks, a, b, p) && capacity > (if twice then 1 else 0) && arg.size != Some(0) && arg.timeout > 0
    ensures IsRun(run) && run[0] == State(seq(tasks, _ => Idle), Empty(capacity))
    ensures var values := if twice then [VALUE, VALUE] else [VALUE];
      run[|run| - 1] == State(seq(tasks, _ => Idle)[a := Pop(DataWait, arg)][b := Pop(DataWait, TAKE)],
                              Empty(capacity).(list := values, pushed := values, sendSem := 1))
  {
    run := Start(tasks, capacity);
    run := PopAlone(run, a, arg);
    run := PopAlone(run, b, TAKE);
    var s := Last(run);
    run := PushAlone(run, p, PUT);
    assert Last(run).pcs == s.pcs;
    if twice {
      run := PushAlone(run, p, PUT);
      assert Last(run).pcs == s.pcs;
    }
  }

  /** For any two consumers, any third task and any capacity above one a wake-up is lost: both wait, two
      values are pushed, the second push sees the token of the first and does not post, and one consumer
      takes the token and a value and returns. The other is left behind. */
  lemma TwoConsumersLoseWakeup(tasks: nat, capacity: nat, a: nat, b: nat, p: nat) returns (run: seq<State>)
    requires ThreeOf(tasks, a, b, p) && capacity > 1
    ensures IsRun(run) && run[0] == State(seq(tasks, _ => Idle), Empty(capacity)) && LeftBehind(run[|run| - 1], b)
  {
    run := TwoWait(tasks, capacity, a, b, p, TAKE, true);
    run := PopWoken(run, a, TAKE);
  }

  /** For every capacity, also one, a consumer whose pop fails takes the wake-up of the other with it. */
  lemma FailedPopLosesWakeup(tasks: nat, capacity: nat, a: nat, b: nat, p: nat) returns (run: seq<State>)
    requires ThreeOf(tasks, a, b, p) && capacity > 0
    ensures IsRun(run) && run[0] == State(seq(tasks, _ => Idle), Empty(capacity)) && LeftBehind(run[|run| - 1], b)
  {
    run := TwoWait(tasks, capacity, a, b, p, TAKE_SMALL, false);
    run := PopWoken(run, a, TAKE_SMALL);
  }

  // ----- the same for producers -----

  const PUT_WAIT: PushArg := PushArg(VALUE, true, 1)

  function Values(k: nat): (r: seq<Block>)
    ensures |r| == k
  {
    if k == 0 then [] else Values(k - 1) + [VALUE]
  }

  /** A task fills a queue. */
  lemma {:induction false} Fill(tasks: nat, capacity: nat, p: nat, k: nat) returns (run: seq<State>)
    requires p < tasks && 0 < k <= capacity
    ensures IsRun(run) && run[0] == State(seq(tasks, _ => Idle), Empty(capacity))
    ensures run[|run| - 1] == State(seq(tasks, _ => Idle),
                                    Empty(capacity).(list := Values(k), pushed := Values(k), sendSem := 1))
  {
    if k == 1 {
      run := Start(tasks, capacity);
    } else {
      run := Fill(tasks, capacity, p, k - 1);
    }
    run := PushAlone(run, p, PUT);
    assert Last(run).pcs == seq(tasks, _ => Idle);
  }

  /** A waiting task is woken and finds no memory for its value. */
  lemma WakeAndFail(run: seq<State>, i: nat) returns (longer: seq<State>)
    requires IsRun(run)
    requires var s := run[|run| - 1];
      && i < |s.pcs| && s.pcs[i] == Push(RoomWait, PUT_WAIT) && s.sh.lock.None? && s.sh.recvSem > 0
    ensures IsRun(longer) && run < longer
    ensures var s, t := run[|run| - 1], longer[|longer| - 1];
      t == State(s.pcs[i := Idle], s.sh.(recvSem := s.sh.recvSem - 1))
  {
    longer := Extend(run, i, Go);
    longer := Extend(longer, i, Go);
    longer := Extend(longer, i, NoMemory);
  }

  /** A producer is left behind: it waits without a token although there is room, and no other task is in
      the middle of anything that could wake it. */
  predicate ProducerLeft(s: State, b: nat) {
    && b < |s.pcs| && s.sh.lock.None? && |s.sh.list| < s.sh.capacity && WaitsForRoom(s, b)
    && s.sh.recvSem == 0 && TaskStep(s.sh, b, s.pcs[b], Go).Stuck?
    && forall j :: 0 <= j < |s.pcs| && j != b ==> s.pcs[j].Idle?
  }

  /** The queue is full and two producers wait. */
  lemma TwoWaitForRoom(tasks: nat, capacity: nat, a: nat, b: nat, p: nat) returns (run: seq<State>)
    requires ThreeOf(tasks, a, b, p) && capacity > 0
    ensures IsRun(run) && run[0] == State(seq(tasks, _ => Idle), Empty(capacity))
    ensures var pcs := seq(tasks, _ => Idle)[a := Push(RoomWait, PUT_WAIT)][b := Push(RoomWait, PUT_WAIT)];
      run[|run| - 1] == State(pcs, Empty(capacity).(list := Values(capacity), pushed := Values(capacity), sendSem := 1))
  {
    run := Fill(tasks, capacity, p, capacity);
    run := PushAlone(run, a, PUT_WAIT);
    run := PushAlone(run, b, PUT_WAIT);
  }

  /** For any two producers, any third task and any capacity above one: both wait for room, two values are
      popped, the second pop sees the token of the first and does not post, and one producer takes the token,
      puts its value and returns. The other is left behind. */
  lemma TwoProducersLoseWakeup(tasks: nat, capacity: nat, a: nat, b: nat, p: nat) returns (run: seq<State>)
    requires ThreeOf(tasks, a, b, p) && capacity > 1
    ensures IsRun(run) && run[0] == State(seq(tasks, _ => Idle), Empty(capacity)) && ProducerLeft(run[|run| - 1], b)
  {
    run := TwoWaitForRoom(tasks, capacity, a, b, p);
    run := PopAlone(run, p, TAKE);
    run := PopAlone(run, p, TAKE);
    run := PushWoken(run, a, PUT_WAIT);
  }

  /** For every capacity, also one, a producer whose push fails takes the wake-up of the other with it. */
  lemma FailedPushLosesWakeup(tasks: nat, capacity: nat, a: nat, b: nat, p: nat) returns (run: seq<State>)
    requires ThreeOf(tasks, a, b, p) && capacity > 0
    ensures IsRun(run) && run[0] == State(seq(tasks, _ => Idle), Empty(capacity)) && ProducerLeft(run[|run| - 1], b)
  {
    run := TwoWaitForRoom(tasks, capacity, a, b, p);
    run := PopAlone(run, p, TAKE);
    run := WakeAndFail(run, a);
  }

  // ----- suspension -----

  /** Nothing but the suspension stands between a push of the task and its put: it has the lock or the lock
      is free, its token is there if it waits for one, and the queue takes its value. */
  predicate Unhindered(s: State, i: nat) {
    && i < |s.pcs| && (s.sh.lock.None? || s.sh.lock == Some(i))
    && (s.pcs[i].Push? ==>
          var arg := s.pcs[i].pushArg;
          && (s.pcs[i].push.RoomWait? ==> s.sh.recvSem > 0)
          && (if arg.mem then PushMemStatus(s.sh.list, s.sh.capacity, Some(arg.value), true)
              else PushStatus(s.sh.list, s.sh.capacity, Some(arg.value), true)).Success?)
  }

  /** A continuation without a resumption. */
  ghost predicate StaysOff(run: seq<State>, longer: seq<State>) {
    && run != [] && IsRun(longer) && run <= longer
    && forall k :: |run| - 1 <= k < |longer| ==> !longer[k].sh.pushOn
  }

  ghost predicate PutAt(run: seq<State>, k: nat, i: nat, a: Action) {
    k + 1 < |run| && Step(run[k], i, a, run[k + 1]) && run[k + 1].sh.pushed != run[k].sh.pushed
  }

  /** After the given point a step of the task puts a value. */
  ghost predicate Puts(run: seq<State>, from: nat, i: nat) {
    exists k: nat, a :: from <= k && PutAt(run, k, i, a)
  }

  lemma ExtendOff(run: seq<State>, longer: seq<State>, i: nat) returns (more: seq<State>)
    requires StaysOff(run, longer)
    requires var s := longer[|longer| - 1];
      i < |s.pcs| && s.pcs[i].Push? && TaskStep(s.sh, i, s.pcs[i], Go).Move?
    ensures StaysOff(run, more) && more == longer + [Do(longer[|longer| - 1], i, Go)]
  {
    more := Extend(longer, i, Go);
  }

  /** From every reachable suspended state a push between the switch and its put can go on to put its value
      while the suspension lasts. */
  lemma InFlightPushPutsAfterSuspend(run: seq<State>, i: nat) returns (longer: seq<State>)
    requires IsRun(run)
    requires var s := run[|run| - 1]; !s.sh.pushOn && Unhindered(s, i) && MayPut(s.pcs[i])
    ensures StaysOff(run, longer) && Puts(longer, |run| - 1, i)
    ensures longer[|longer| - 1].sh.pushed == run[|run| - 1].sh.pushed + [run[|run| - 1].pcs[i].pushArg.value]
  {
    RunKeeps(run, |run| - 1);
    var s := run[|run| - 1];
    assert TaskOk(s.sh, i, s.pcs[i]);
    longer := run;
    if s.pcs[i].push.RoomLock? {
      longer := ExtendOff(run, longer, i);
    }
    if s.pcs[i].push.RoomLock? || s.pcs[i].push.RoomHeld? || s.pcs[i].push.RoomWait? {
      longer := ExtendOff(run, longer, i);
    }
    if !s.pcs[i].push.PutHeld? {
      longer := ExtendOff(run, longer, i);
    }
    var before := longer;
    var t := before[|before| - 1];
    longer := ExtendOff(run, longer, i);
    assert PutAt(longer, |before| - 1, i, Go);
  }

  /** So in every reachable suspended state in which nothing else hinders the task, it can put a value before
      a resumption if and only if it is between the switch and its put. */
  lemma PutsWhileSuspendedIff(run: seq<State>, i: nat)
    requires IsRun(run)
    requires var s := run[|run| - 1]; !s.sh.pushOn && Unhindered(s, i)
    ensures MayPut(run[|run| - 1].pcs[i]) <==> exists longer :: StaysOff(run, longer) && Puts(longer, |run| - 1, i)
  {
    var from := |run| - 1;
    if MayPut(run[from].pcs[i]) {
      var longer := InFlightPushPutsAfterSuspend(run, i);
    } else {
      forall longer | StaysOff(run, longer) ensures !Puts(longer, from, i) { NothingPut(run, longer, i); }
    }
  }

  lemma NothingPut(run: seq<State>, longer: seq<State>, i: nat)
    requires IsRun(run) && StaysOff(run, longer) && i < |run[|run| - 1].pcs| && !MayPut(run[|run| - 1].pcs[i])
    ensures !Puts(longer, |run| - 1, i)
  {
    var from, upto := |run| - 1, |longer| - 1;
    assert longer[from] == run[from];
    forall k | from <= k <= upto ensures i < |longer[k].pcs| {
      RunKeeps(longer, k);
      RunKeeps(longer, from);
    }
    forall k: nat, a | from <= k ensures !PutAt(longer, k, i, a) {
      if k < upto && Step(longer[k], i, a, longer[k + 1]) { LatePushPutsNothing(longer, i, from, upto, k, a); }
    }
  }

  /** And for any two tasks and every capacity a suspension can meet a push there. */
  lemma SuspensionMeetsPush(tasks: nat, capacity: nat, i: nat, j: nat) returns (run: seq<State>)
    requires i < tasks && j < tasks && i != j && capacity > 0
    ensures IsRun(run) && run[0] == State(seq(tasks, _ => Idle), Empty(capacity))
    ensures var s := run[|run| - 1];
      |s.pcs| == tasks && !s.sh.pushOn && Unhindered(s, i) && MayPut(s.pcs[i]) && s.pcs[j].Idle?
  {
    run := Start(tasks, capacity);
    run := ToRoom(run, i, PUT);
    run := SwitchAlone(run, j, false);
  }
}
