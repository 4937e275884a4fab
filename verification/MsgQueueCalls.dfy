/** What a call of the message queue comes to when its task is left alone: from every reachable state in
    which the lock is free, where the task's own steps lead, for every argument. */
module MsgQueueCalls {
  import opened Common
  import opened UtilsQueue
  import opened MsgQueue

  /** The state after a step that is known to be possible. */
  function Do(s: State, i: nat, a: Action): State
    requires i < |s.pcs| && TaskStep(s.sh, i, s.pcs[i], a).Move?
  {
    var m := TaskStep(s.sh, i, s.pcs[i], a);
    State(s.pcs[i := m.pc], m.sh)
  }

  function Last(run: seq<State>): State
    requires run != []
  {
    run[|run| - 1]
  }

  lemma Extend(run: seq<State>, i: nat, a: Action) returns (longer: seq<State>)
    requires IsRun(run) && i < |Last(run).pcs| && TaskStep(Last(run).sh, i, Last(run).pcs[i], a).Move?
    ensures IsRun(longer) && longer == run + [Do(Last(run), i, a)]
  {
    var s := run[|run| - 1];
    var t := Do(s, i, a);
    longer := run + [t];
    assert Step(s, i, a, t);
    forall k: nat | k < |longer| - 1 ensures StepAt(longer, k) {
      if k < |run| - 1 {
        assert StepAt(run, k);
      }
    }
  }

  /** A step of the task that is neither a timeout nor a lack of memory. */
  ghost predicate GoesAt(run: seq<State>, k: nat, i: nat) {
    k + 1 < |run| && Step(run[k], i, Go, run[k + 1])
  }

  /** The longer run goes on from the end of the other with steps of the task only. */
  ghost predicate Alone(run: seq<State>, longer: seq<State>, i: nat) {
    && run != [] && run <= longer && IsRun(longer)
    && forall k: nat :: |run| - 1 <= k < |longer| - 1 ==> GoesAt(longer, k, i)
  }

  lemma GoOn(run: seq<State>, mid: seq<State>, i: nat) returns (longer: seq<State>)
    requires Alone(run, mid, i) && i < |Last(mid).pcs| && TaskStep(Last(mid).sh, i, Last(mid).pcs[i], Go).Move?
    ensures Alone(run, longer, i) && longer == mid + [Do(Last(mid), i, Go)]
  {
    longer := Extend(mid, i, Go);
    forall k: nat | |run| - 1 <= k < |longer| - 1 ensures GoesAt(longer, k, i) {
      if k < |mid| - 1 {
        assert GoesAt(mid, k, i);
      } else {
        assert Step(Last(mid), i, Go, Last(longer));
      }
    }
  }

  /** The task is between calls and nobody has the lock. */
  predicate Quiet(s: State, i: nat) {
    i < |s.pcs| && s.pcs[i].Idle? && s.sh.lock.None?
  }

  // ----- pop -----

  predicate HeadFits(sh: Shared, arg: PopArg) {
    sh.list != [] && (arg.size.Some? ==> |sh.list[0]| <= arg.size.value)
  }

  /** The head is taken, if there is one and it fits, and the other side has its token. */
  function Taken(sh: Shared, arg: PopArg): Shared {
    if HeadFits(sh, arg) then sh.(list := sh.list[1..], popped := sh.popped + [sh.list[0]], recvSem := 1) else sh
  }

  /** What a pop should come to: the head is taken if it fits; on an empty queue a pop that may not wait
      returns, one without a token waits, and one with a token, which is stale, spends it and returns. */
  function Popped(sh: Shared, arg: PopArg): (Shared, Pc) {
    if arg.size == Some(0) then (sh, Idle)
    else if sh.list != [] then (Taken(sh, arg), Idle)
    else if arg.timeout == 0 then (sh, Idle)
    else if sh.sendSem == 0 then (sh, Pop(DataWait, arg))
    else (sh.(sendSem := sh.sendSem - 1), Idle)
  }

  lemma TakeAlone(run: seq<State>, mid: seq<State>, i: nat, arg: PopArg) returns (longer: seq<State>)
    requires Alone(run, mid, i) && arg.size != Some(0)
    requires var s := Last(mid); i < |s.pcs| && s.pcs[i] == Pop(TakeLock, arg) && s.sh.lock.None? && s.sh.recvSem <= 1
    ensures Alone(run, longer, i)
    ensures Last(longer) == State(Last(mid).pcs[i := Idle], Taken(Last(mid).sh, arg))
  {
    longer := GoOn(run, mid, i);
    longer := GoOn(run, longer, i);
    if HeadFits(Last(mid).sh, arg) {
      longer := GoOn(run, longer, i);
      if Last(mid).sh.recvSem == 0 {
        longer := GoOn(run, longer, i);
      }
      longer := GoOn(run, longer, i);
    }
  }

  /** A waiting pop that gets its token, left alone, spends it, takes the head if it fits and returns. */
  lemma PopWoken(run: seq<State>, i: nat, arg: PopArg) returns (longer: seq<State>)
    requires IsRun(run) && arg.size != Some(0)
    requires var s := Last(run); i < |s.pcs| && s.pcs[i] == Pop(DataWait, arg) && s.sh.lock.None? && s.sh.sendSem > 0
    ensures Alone(run, longer, i)
    ensures var s := Last(run);
      Last(longer) == State(s.pcs[i := Idle], Taken(s.sh.(sendSem := s.sh.sendSem - 1), arg))
  {
    RunKeeps(run, |run| - 1);
    longer := GoOn(run, run, i);
    longer := TakeAlone(run, longer, i, arg);
  }

  /** From every reachable state with the lock free, a pop of an idle task, left alone, for every size and
      timeout: it comes to exactly what it should. */
  lemma PopAlone(run: seq<State>, i: nat, arg: PopArg) returns (longer: seq<State>)
    requires IsRun(run) && Quiet(Last(run), i)
    ensures Alone(run + [Do(Last(run), i, CallPop(arg))], longer, i)
    ensures var s := Last(run);
      Last(longer) == State(s.pcs[i := Popped(s.sh, arg).1], Popped(s.sh, arg).0)
  {
    RunKeeps(run, |run| - 1);
    var s := Last(run);
    var called := Extend(run, i, CallPop(arg));
    longer := called;
    if arg.size != Some(0) {
      longer := GoOn(called, longer, i);
      longer := GoOn(called, longer, i);
      if s.sh.list != [] {
        longer := TakeAlone(called, longer, i, arg);
      } else if arg.timeout > 0 && s.sh.sendSem > 0 {
        longer := GoOn(called, longer, i);
        longer := TakeAlone(called, longer, i, arg);
      }
    }
  }

  // ----- push -----

  predicate TakesValue(sh: Shared, arg: PushArg) {
    |sh.list| < sh.capacity && (arg.mem || |arg.value| <= 1024)
  }

  /** The value is put, if there is room and it is not too long to be copied, and the other side has its token. */
  function Put(sh: Shared, arg: PushArg): Shared {
    if TakesValue(sh, arg)
    then sh.(list := sh.list + [arg.value], pushed := sh.pushed + [arg.value], sendSem := 1)
    else sh
  }

  /** What a push should come to: nothing if it has no value or the switch is off; the value is put if there
      is room; on a full queue a push that may not wait returns, one without a token waits, and one with a
      token, which is stale, spends it and returns. */
  function Pushed(sh: Shared, arg: PushArg): (Shared, Pc) {
    if arg.value == [] || !sh.pushOn then (sh, Idle)
    else if |sh.list| < sh.capacity then (Put(sh, arg), Idle)
    else if arg.timeout == 0 then (sh, Idle)
    else if sh.recvSem == 0 then (sh, Push(RoomWait, arg))
    else (sh.(recvSem := sh.recvSem - 1), Idle)
  }

  lemma PutAlone(run: seq<State>, mid: seq<State>, i: nat, arg: PushArg) returns (longer: seq<State>)
    requires Alone(run, mid, i) && arg.value != []
    requires var s := Last(mid); i < |s.pcs| && s.pcs[i] == Push(PutLock, arg) && s.sh.lock.None? && s.sh.sendSem <= 1
    ensures Alone(run, longer, i)
    ensures Last(longer) == State(Last(mid).pcs[i := Idle], Put(Last(mid).sh, arg))
  {
    longer := GoOn(run, mid, i);
    longer := GoOn(run, longer, i);
    if TakesValue(Last(mid).sh, arg) {
      longer := AnnounceAlone(run, longer, i, arg);
    }
  }

  lemma AnnounceAlone(run: seq<State>, mid: seq<State>, i: nat, arg: PushArg) returns (longer: seq<State>)
    requires Alone(run, mid, i)
    requires var s := Last(mid); i < |s.pcs| && s.pcs[i] == Push(SentHeld, arg) && s.sh.sendSem <= 1
    ensures Alone(run, longer, i)
    ensures Last(longer) == State(Last(mid).pcs[i := Idle], Last(mid).sh.(lock := None, sendSem := 1))
  {
    longer := GoOn(run, mid, i);
    if Last(mid).sh.sendSem == 0 {
      longer := GoOn(run, longer, i);
    }
    longer := GoOn(run, longer, i);
  }

  /** A waiting push that gets its token, left alone, spends it, puts its value if it can and returns. */
  lemma PushWoken(run: seq<State>, i: nat, arg: PushArg) returns (longer: seq<State>)
    requires IsRun(run) && arg.value != []
    requires var s := Last(run); i < |s.pcs| && s.pcs[i] == Push(RoomWait, arg) && s.sh.lock.None? && s.sh.recvSem > 0
    ensures Alone(run, longer, i)
    ensures var s := Last(run);
      Last(longer) == State(s.pcs[i := Idle], Put(s.sh.(recvSem := s.sh.recvSem - 1), arg))
  {
    RunKeeps(run, |run| - 1);
    longer := GoOn(run, run, i);
    longer := PutAlone(run, longer, i, arg);
  }

  /** A push that finds the switch on looks for room. */
  lemma ToRoom(run: seq<State>, i: nat, arg: PushArg) returns (longer: seq<State>)
    requires IsRun(run) && Quiet(Last(run), i) && Last(run).sh.pushOn && arg.value != []
    ensures Alone(run + [Do(Last(run), i, CallPush(arg))], longer, i)
    ensures var s := Last(run);
      Last(longer) == State(s.pcs[i := if |s.sh.list| < s.sh.capacity then Push(PutLock, arg)
                                       else if arg.timeout == 0 then Idle else Push(RoomWait, arg)], s.sh)
  {
    var called := Extend(run, i, CallPush(arg));
    longer := GoOn(called, called, i);
    longer := GoOn(called, longer, i);
    longer := GoOn(called, longer, i);
    longer := GoOn(called, longer, i);
  }

  /** From every reachable state with the lock free, a push of an idle task, left alone, for every value and
      timeout, copied or handed over: it comes to exactly what it should. */
  lemma PushAlone(run: seq<State>, i: nat, arg: PushArg) returns (longer: seq<State>)
    requires IsRun(run) && Quiet(Last(run), i)
    ensures Alone(run + [Do(Last(run), i, CallPush(arg))], longer, i)
    ensures var s := Last(run);
      Last(longer) == State(s.pcs[i := Pushed(s.sh, arg).1], Pushed(s.sh, arg).0)
  {
    RunKeeps(run, |run| - 1);
    var s, called := Last(run), run + [Do(Last(run), i, CallPush(arg))];
    if arg.value == [] {
      longer := Extend(run, i, CallPush(arg));
    } else if !s.sh.pushOn {
      longer := Extend(run, i, CallPush(arg));
      longer := GoOn(called, longer, i);
      longer := GoOn(called, longer, i);
    } else {
      longer := ToRoom(run, i, arg);
      if |s.sh.list| < s.sh.capacity {
        longer := PutAlone(called, longer, i, arg);
      } else if arg.timeout > 0 && s.sh.recvSem > 0 {
        longer := GoOn(called, longer, i);
        longer := PutAlone(called, longer, i, arg);
      }
    }
  }

  // ----- the switch -----

  /** A suspension or a resumption, left alone, sets the switch, changes nothing else and returns. */
  lemma SwitchAlone(run: seq<State>, i: nat, on: bool) returns (longer: seq<State>)
    requires IsRun(run) && Quiet(Last(run), i)
    ensures Alone(run + [Do(Last(run), i, CallSwitch(on))], longer, i)
    ensures Last(longer) == State(Last(run).pcs, Last(run).sh.(pushOn := on))
  {
    var called := Extend(run, i, CallSwitch(on));
    longer := GoOn(called, called, i);
    longer := GoOn(called, longer, i);
    assert Last(longer).pcs == Last(run).pcs;
  }

  // ----- calls that have to wait or fail -----

  /** With one consumer and any number of producers: whenever the lock is free and the consumer still waits
      although the queue is not empty, it can go on by itself, takes the head if it fits and returns. */
  lemma ConsumerTakes(run: seq<State>, c: nat, arg: PopArg) returns (longer: seq<State>)
    requires IsRun(run) && SoleConsumer(run, c) && arg.size != Some(0)
    requires var s := Last(run); c < |s.pcs| && s.pcs[c] == Pop(DataWait, arg) && s.sh.lock.None? && s.sh.list != []
    ensures Alone(run, longer, c)
    ensures Last(longer) == State(Last(run).pcs[c := Idle], Taken(Last(run).sh.(sendSem := 0), arg))
  {
    ConsumerWakes(run, |run| - 1, c);
    longer := PopWoken(run, c, arg);
  }

  /** The same with one producer that waits for room. */
  lemma ProducerPuts(run: seq<State>, p: nat, arg: PushArg) returns (longer: seq<State>)
    requires IsRun(run) && SoleProducer(run, p) && arg.value != []
    requires var s := Last(run);
      p < |s.pcs| && s.pcs[p] == Push(RoomWait, arg) && s.sh.lock.None? && |s.sh.list| < s.sh.capacity
    ensures Alone(run, longer, p)
    ensures Last(longer) == State(Last(run).pcs[p := Idle], Put(Last(run).sh.(recvSem := 0), arg))
  {
    ProducerWakes(run, |run| - 1, p);
    longer := PushWoken(run, p, arg);
  }

  /** A task can run into a timeout exactly when it waits for the lock or a semaphore, and the call then ends
      and has changed nothing; but a push that gives up on the lock of the switch goes on if the switch is on.
      It can lack memory exactly when it is to put its value, and then only gives back the lock and ends. */
  lemma FailuresChangeNothing(sh: Shared, i: nat, pc: Pc)
    ensures TaskStep(sh, i, pc, GiveUp) ==
      if pc.Idle? || MsgQueue.Holds(pc) then Stuck
      else if pc.Push? && pc.push.SwitchLock? && sh.pushOn then Move(sh, Push(RoomLock, pc.pushArg))
      else Move(sh, Idle)
    ensures TaskStep(sh, i, pc, NoMemory) ==
      if pc.Push? && pc.push.PutHeld? then Move(sh.(lock := None), Idle) else Stuck
  {}

  /** A task that has the lock can always go on. */
  lemma HolderGoesOn(run: seq<State>, k: nat, i: nat)
    requires IsRun(run) && k < |run| && run[k].sh.lock == Some(i)
    ensures i < |run[k].pcs| && TaskStep(run[k].sh, i, run[k].pcs[i], Go).Move?
  {
    RunKeeps(run, k);
    assert TaskOk(run[k].sh, i, run[k].pcs[i]);
  }
}
