/** Runs that show why the exactly-once guarantee of the executor needs its condition, and that the
    condition is exact. */
module ExecutorLimits {
  import opened Common
  import opened Executor

  function Last(run: seq<State>): State
    requires run != []
  {
    run[|run| - 1]
  }

  function Do(s: State, i: nat, a: Action): State
    requires i < |s.pcs| && TaskStep(s.sh, i, s.pcs[i], a).Move?
  {
    var m := TaskStep(s.sh, i, s.pcs[i], a);
    State(s.pcs[i := m.pc], s.h, m.sh)
  }

  function DoSched(s: State, a: HandlerAction): State
    requires HandlerStep(s.sh, s.h, a).HMove?
  {
    var m := HandlerStep(s.sh, s.h, a);
    State(s.pcs, m.h, m.sh)
  }

  lemma Append(run: seq<State>, t: State) returns (longer: seq<State>)
    requires IsRun(run) && Next(Last(run), t)
    ensures IsRun(longer) && run <= longer && Last(longer) == t
  {
    longer := run + [t];
    forall k: nat | k < |longer| - 1 ensures StepAt(longer, k) {
      if k < |run| - 1 { assert StepAt(run, k); }
    }
  }

  lemma Extend(run: seq<State>, i: nat, a: Action) returns (longer: seq<State>)
    requires IsRun(run) && var s := Last(run); i < |s.pcs| && TaskStep(s.sh, i, s.pcs[i], a).Move?
    ensures IsRun(longer) && run <= longer && Last(longer) == Do(Last(run), i, a)
  {
    assert StepOfTask(Last(run), i, a, Do(Last(run), i, a));
    longer := Append(run, Do(Last(run), i, a));
  }

  lemma ExtendSched(run: seq<State>, a: HandlerAction) returns (longer: seq<State>)
    requires IsRun(run) && HandlerStep(Last(run).sh, Last(run).h, a).HMove?
    ensures IsRun(longer) && run <= longer && Last(longer) == DoSched(Last(run), a)
  {
    assert StepOfHandler(Last(run), a, DoSched(Last(run), a));
    longer := Append(run, DoSched(Last(run), a));
  }

  // ----- stretches of a run -----

  /** A task that wants the API lock takes it and fills the slot. */
  lemma ToSend(run: seq<State>, i: nat, c: nat) returns (longer: seq<State>)
    requires IsRun(run)
    requires var s := Last(run);
      i < |s.pcs| && s.pcs[i] == In(WantApi, c) && c < |s.sh.calls| && s.sh.apiLock.None? && s.sh.taskLock.None?
    ensures IsRun(longer) && run <= longer
    ensures var s := Last(run);
      Last(longer) == State(s.pcs[i := In(Send, c)], s.h, s.sh.(apiLock := Some(i), info := SlotOf(c, false)))
  {
    longer := Extend(run, i, Go);
    longer := Extend(longer, i, Go);
    longer := Extend(longer, i, Go);
  }

  lemma SendOne(run: seq<State>, i: nat, c: nat) returns (longer: seq<State>)
    requires IsRun(run)
    requires var s := Last(run);
      i < |s.pcs| && s.pcs[i] == In(Send, c) && c < |s.sh.calls| && |s.sh.queue| < s.sh.capacity
    ensures IsRun(longer) && run <= longer
    ensures var s := Last(run);
      Last(longer) == State(s.pcs[i := In(WaitSem, c)], s.h,
        s.sh.(queue := s.sh.queue + [WaitMsg(c)], calls := s.sh.calls[c := s.sh.calls[c].(sent := true)]))
  {
    longer := Extend(run, i, Go);
  }

  /** An idle task begins a call, fills the slot, enqueues its message and waits. */
  lemma ToWait(run: seq<State>, i: nat) returns (longer: seq<State>)
    requires IsRun(run)
    requires var s := Last(run);
      i < |s.pcs| && s.pcs[i].Idle? && s.sh.apiLock.None? && s.sh.taskLock.None? && |s.sh.queue| < s.sh.capacity
    ensures IsRun(longer) && run <= longer
    ensures var s, c := Last(run), |Last(run).sh.calls|;
      Last(longer) == State(s.pcs[i := In(WaitSem, c)], s.h,
        s.sh.(apiLock := Some(i), info := SlotOf(c, false), queue := s.sh.queue + [WaitMsg(c)],
              calls := s.sh.calls + [NewCall(Of(i)).(sent := true)]))
  {
    var c := |Last(run).sh.calls|;
    longer := Extend(run, i, CallWait);
    longer := ToSend(longer, i, c);
    longer := SendOne(longer, i, c);
  }

  /** The call c as it is after its callback has run. */
  function RunCall(calls: seq<Call>, c: nat, r: Ran): seq<Call>
    requires c < |calls|
  {
    calls[c := calls[c].(runs := calls[c].runs + [r], errcode := Some(r.value), outData := Some(r.data))]
  }

  /** The scheduler task, with a wait message in hand, runs the callback in the slot. */
  lemma ServeSlot(run: seq<State>, c: nat, r: Ran) returns (longer: seq<State>)
    requires IsRun(run)
    requires var s := Last(run);
      && s.h == HGot(true) && s.sh.taskLock.None? && s.sh.nested == [] && c < |s.sh.calls|
      && s.sh.info == SlotOf(c, s.sh.info.finish)
    ensures IsRun(longer) && run <= longer
    ensures var s := Last(run);
      Last(longer) == State(s.pcs, HIdle,
        s.sh.(waitSem := s.sh.waitSem + 1, info := SlotOf(c, true), calls := RunCall(s.sh.calls, c, r)))
  {
    longer := ExtendSched(run, HGo(0, 0));
    longer := ExtendSched(longer, HGo(0, 0));
    longer := ExtendSched(longer, HGo(r.value, r.data));
    longer := ExtendSched(longer, HGo(0, 0));
    longer := ExtendSched(longer, HGo(0, 0));
    longer := ExtendSched(longer, HGo(0, 0));
  }

  lemma Serve(run: seq<State>, c: nat, r: Ran) returns (longer: seq<State>)
    requires IsRun(run)
    requires var s := Last(run);
      && s.h.HIdle? && s.sh.taskLock.None? && s.sh.nested == [] && s.sh.queue != [] && s.sh.queue[0].WaitMsg?
      && c < |s.sh.calls| && s.sh.info == SlotOf(c, s.sh.info.finish)
    ensures IsRun(longer) && run <= longer
    ensures var s := Last(run);
      Last(longer) == State(s.pcs, HIdle,
        s.sh.(queue := s.sh.queue[1..], waitSem := s.sh.waitSem + 1, info := SlotOf(c, true),
              calls := RunCall(s.sh.calls, c, r)))
  {
    longer := ExtendSched(run, HGo(0, 0));
    longer := ServeSlot(longer, c, r);
  }

  /** What becomes of a waiting call: woken by a token or not, it looks at the finish bit and leaves. */
  lemma Leave(run: seq<State>, i: nat, c: nat, woken: bool) returns (longer: seq<State>)
    requires IsRun(run)
    requires var s := Last(run);
      && i < |s.pcs| && s.pcs[i] == In(ResultLock(woken), c) && s.sh.taskLock.None? && c < |s.sh.calls|
      && (s.sh.info.finish ==> woken)
    ensures IsRun(longer) && run <= longer
    ensures var s := Last(run);
      Last(longer) == State(s.pcs[i := Idle], s.h,
        s.sh.(apiLock := None, info := EMPTY, stale := s.sh.stale + (if woken then 0 else 1),
              calls := s.sh.calls[c := s.sh.calls[c].(ret := Some(s.sh.info.finish))]))
  {
    longer := Extend(run, i, Go);
    longer := Extend(longer, i, Go);
    longer := Extend(longer, i, Go);
    longer := Extend(longer, i, Go);
  }

  /** A waiting task gives up before the scheduler task has served it. */
  lemma TimeOut(run: seq<State>, i: nat, c: nat) returns (longer: seq<State>)
    requires IsRun(run)
    requires var s := Last(run);
      && i < |s.pcs| && s.pcs[i] == In(WaitSem, c) && s.sh.taskLock.None? && !s.sh.info.finish && c < |s.sh.calls|
    ensures IsRun(longer) && run <= longer
    ensures var s := Last(run);
      Last(longer) == State(s.pcs[i := Idle], s.h,
        s.sh.(apiLock := None, info := EMPTY, stale := s.sh.stale + 1,
              calls := s.sh.calls[c := s.sh.calls[c].(ret := Some(false))]))
  {
    longer := Extend(run, i, GiveUp);
    longer := Leave(longer, i, c, false);
  }

  /** A waiting task takes a token and returns what the finish bit says. */
  lemma TakeToken(run: seq<State>, i: nat, c: nat) returns (longer: seq<State>)
    requires IsRun(run)
    requires var s := Last(run);
      && i < |s.pcs| && s.pcs[i] == In(WaitSem, c) && s.sh.taskLock.None? && s.sh.waitSem > 0 && c < |s.sh.calls|
    ensures IsRun(longer) && run <= longer
    ensures var s := Last(run);
      Last(longer) == State(s.pcs[i := Idle], s.h,
        s.sh.(apiLock := None, info := EMPTY, waitSem := s.sh.waitSem - 1,
              calls := s.sh.calls[c := s.sh.calls[c].(ret := Some(s.sh.info.finish))]))
  {
    longer := Extend(run, i, Go);
    longer := Leave(longer, i, c, true);
  }

  /** A call that cannot enqueue its message clears the slot and returns failure. */
  lemma FailToSend(run: seq<State>, i: nat, c: nat) returns (longer: seq<State>)
    requires IsRun(run)
    requires var s := Last(run);
      i < |s.pcs| && s.pcs[i] == In(Send, c) && s.sh.taskLock.None? && c < |s.sh.calls|
    ensures IsRun(longer) && run <= longer
    ensures var s := Last(run);
      Last(longer) == State(s.pcs[i := Idle], s.h,
        s.sh.(apiLock := None, info := EMPTY, calls := s.sh.calls[c := s.sh.calls[c].(ret := Some(false))]))
  {
    longer := Extend(run, i, GiveUp);
    longer := Extend(longer, i, Go);
    longer := Extend(longer, i, Go);
    longer := Extend(longer, i, Go);
  }

  /** After one call has timed out with its message enqueued, the next call is served twice: once by
      the stale message and once by its own. It returns success with the second result, and the
      semaphore is left at one although the API lock is free. */
  lemma StaleMessageRunsTwice() returns (run: seq<State>)
    ensures IsRun(run)
    ensures var sh := Last(run).sh;
      && sh.stale == 1 && sh.apiLock.None? && sh.waitSem == 1 && |sh.calls| == 2
      && sh.calls[1].ret == Some(true) && sh.calls[1].runs == [Ran(5, 0), Ran(6, 0)] && sh.calls[1].errcode == Some(6)
  {
    run := [State([Idle, Idle], HIdle, Shared(None, None, 0, EMPTY, [], 2, [], [], 0))];
    run := ToWait(run, 0);
    run := TimeOut(run, 0, 0);
    run := ToWait(run, 1);
    run := Serve(run, 1, Ran(5, 0));
    run := Serve(run, 1, Ran(6, 0));
    run := TakeToken(run, 1, 1);
  }

  /** From every reachable state with the API lock free and nothing left over: a call of an idle task, with
      no timeout anywhere, is served. It returns success, its callback has run once, and its cells hold what
      that run returned and wrote out, whatever that is; and nothing is left over again. */
  lemma CallServed(run: seq<State>, i: nat, r: Ran) returns (longer: seq<State>, c: nat)
    requires IsRun(run) && Clean(Last(run)) && i < |Last(run).pcs| && Last(run).pcs[i].Idle?
    ensures IsRun(longer) && run <= longer && Clean(Last(longer)) && Last(longer).pcs == Last(run).pcs
    ensures |Last(run).sh.calls| <= c < |Last(longer).sh.calls|
    ensures Last(longer).sh.calls[c] == Call(Of(i), [r], Some(r.value), Some(r.data), true, Some(true))
  {
    longer := Drain(run, true);
    FreeLocks(longer);
    c := |Last(longer).sh.calls|;
    longer := ToWait(longer, i);
    longer := Serve(longer, c, r);
    longer := TakeToken(longer, i, c);
    assert Last(longer).pcs == Last(run).pcs;
  }

  // ----- the condition is exact -----

  /** A message or a token of an earlier call is left although the API lock is free. */
  predicate LeftOver(s: State) {
    s.sh.apiLock.None? && !Clean(s)
  }

  predicate Pending(s: State) {
    Waits(s.sh.queue) > 0 || s.h == HGot(true)
  }

  /** How far the scheduler task is from having nothing to do. */
  function Work(s: State): nat {
    4 * |s.sh.queue| + |s.sh.nested|
    + match s.h
      case HIdle => 0
      case HGot(_) => 3
      case HHeld => 2
      case _ => 1
  }

  /** What the scheduler task leaves alone while the API lock is free. */
  predicate Quiet(s: State, t: State) {
    && t.pcs == s.pcs && t.sh.apiLock.None? && t.sh.waitSem == s.sh.waitSem && t.sh.stale == s.sh.stale
    && t.sh.capacity == s.sh.capacity && |s.sh.calls| <= |t.sh.calls|
    && forall c :: 0 <= c < |s.sh.calls| && s.sh.calls[c].caller.Of? ==> t.sh.calls[c] == s.sh.calls[c]
  }

  lemma IdleStep(s: State)
    requires Inv(s) && s.sh.apiLock.None? && !(s.h.HIdle? && s.sh.queue == [])
    ensures HandlerStep(s.sh, s.h, SchedNext(s)).HMove?
    ensures var t := DoSched(s, SchedNext(s));
      Work(t) < Work(s) && Quiet(s, t) && (Pending(s) && s.h != HGot(true) ==> Pending(t))
  {
    if s.sh.queue != [] { WaitsTail(s.sh.queue); }
    assert Holder(s) == Idle;
    HandlerCalls(Idle, s.h, s.sh, SchedNext(s));
  }

  /** The scheduler task works until it has a wait message in hand, or has nothing left to do. */
  lemma {:induction false} Drain(run: seq<State>, toTheEnd: bool) returns (longer: seq<State>)
    requires IsRun(run) && Last(run).sh.apiLock.None? && (toTheEnd || Pending(Last(run)))
    ensures IsRun(longer) && run <= longer && Quiet(Last(run), Last(longer))
    ensures if toTheEnd then Last(longer).h.HIdle? && Last(longer).sh.queue == [] else Last(longer).h == HGot(true)
    decreases Work(Last(run))
  {
    var s := Last(run);
    RunKeeps(run, |run| - 1);
    if (s.h.HIdle? && s.sh.queue == []) || (!toTheEnd && s.h == HGot(true)) {
      longer := run;
    } else {
      IdleStep(s);
      longer := ExtendSched(run, SchedNext(s));
      longer := Drain(longer, toTheEnd);
    }
  }

  /** The next call of a task: begun, if it was not, and waiting for the API lock. */
  lemma NextCall(run: seq<State>, i: nat) returns (longer: seq<State>, c: nat)
    requires IsRun(run) && Last(run).sh.apiLock.None? && i < |Last(run).pcs|
    ensures IsRun(longer) && run <= longer
    ensures var s, t := Last(run), Last(longer);
      && i < |t.pcs| && t.pcs[i] == In(WantApi, c) && c < |t.sh.calls| && t.sh.calls[c].caller == Of(i)
      && t.sh.calls[c].ret.None? && t.sh.calls[c].runs == [] && !t.sh.calls[c].sent
      && (c < |s.sh.calls| ==> s.sh.calls[c].ret.None?)
      && t.sh.apiLock.None? && t.sh.waitSem == s.sh.waitSem && t.sh.stale == s.sh.stale
      && t.h == s.h && t.sh.queue == s.sh.queue
  {
    var s := Last(run);
    RunKeeps(run, |run| - 1);
    assert TaskOk(s.sh, i, s.pcs[i]);
    if s.pcs[i].Idle? {
      c := |s.sh.calls|;
      longer := Extend(run, i, CallWait);
    } else {
      longer, c := run, s.pcs[i].call;
    }
  }

  lemma FreeLocks(run: seq<State>)
    requires IsRun(run) && Last(run).sh.apiLock.None? && (Last(run).h.HIdle? || Last(run).h.HGot?)
    ensures Last(run).sh.taskLock.None? && Last(run).sh.nested == [] && Last(run).sh.capacity > 0
    ensures Last(run).sh.info == EMPTY
  {
    RunKeeps(run, |run| - 1);
  }

  /** A token left over: the next call wakes at once and returns failure though it enqueued its message. */
  lemma TokenBreaks(run: seq<State>, i: nat, c: nat) returns (longer: seq<State>)
    requires IsRun(run)
    requires var s := Last(run);
      && i < |s.pcs| && s.pcs[i] == In(WantApi, c) && c < |s.sh.calls| && s.sh.calls[c].caller.Of?
      && s.sh.apiLock.None? && s.sh.waitSem > 0
    ensures IsRun(longer) && run <= longer && Last(longer).sh.stale == Last(run).sh.stale
    ensures c < |Last(longer).sh.calls| && !OnceCall(Last(longer).sh.calls[c])
  {
    longer := Drain(run, true);
    FreeLocks(longer);
    longer := ToSend(longer, i, c);
    longer := SendOne(longer, i, c);
    longer := TakeToken(longer, i, c);
  }

  /** A message left over: the callback of the next call runs although the call never enqueued. */
  lemma MessageBreaks(run: seq<State>, i: nat, c: nat) returns (longer: seq<State>)
    requires IsRun(run)
    requires var s := Last(run);
      && i < |s.pcs| && s.pcs[i] == In(WantApi, c) && c < |s.sh.calls| && s.sh.calls[c].caller.Of?
      && s.sh.calls[c].runs == [] && !s.sh.calls[c].sent && s.sh.apiLock.None? && Pending(s)
    ensures IsRun(longer) && run <= longer && Last(longer).sh.stale == Last(run).sh.stale
    ensures c < |Last(longer).sh.calls| && !OnceCall(Last(longer).sh.calls[c])
  {
    longer := Drain(run, false);
    FreeLocks(longer);
    longer := ToSend(longer, i, c);
    longer := ServeSlot(longer, c, Ran(0, 0));
    longer := FailToSend(longer, i, c);
  }

  /** From every reachable state with the API lock free and something left over, and for every task, the
      next call of that task can go wrong although no call times out after enqueuing. */
  lemma LeftOverBreaks(run: seq<State>, i: nat) returns (longer: seq<State>, c: nat)
    requires IsRun(run) && LeftOver(Last(run)) && i < |Last(run).pcs|
    ensures IsRun(longer) && run <= longer && Last(longer).sh.stale == Last(run).sh.stale
    ensures c < |Last(longer).sh.calls| && Last(longer).sh.calls[c].caller.Of?
    ensures !OnceCall(Last(longer).sh.calls[c])
    ensures c < |Last(run).sh.calls| ==> Last(run).sh.calls[c].ret.None?
  {
    RunKeeps(run, |run| - 1);
    longer, c := NextCall(run, i);
    if Last(run).sh.waitSem > 0 {
      longer := TokenBreaks(longer, i, c);
    } else {
      longer := MessageBreaks(longer, i, c);
    }
  }

  /** However the run goes on, as long as no further call times out after enqueuing, every call that
      returns from now on is served exactly once. */
  ghost predicate SafeFrom(run: seq<State>) {
    run != [] && forall longer :: Continues(run, longer) ==> OnceSince(Last(longer).sh.calls, Last(run).sh.calls)
  }

  ghost predicate Continues(run: seq<State>, longer: seq<State>) {
    run != [] && IsRun(longer) && run <= longer && Last(longer).sh.stale == Last(run).sh.stale
  }

  /** In every reachable state with the API lock free: calls are exactly once from now on, until one times
      out after enqueuing, if and only if neither a message nor a token is left over. */
  lemma ExactlyOnceIff(run: seq<State>)
    requires IsRun(run) && Last(run).sh.apiLock.None? && |Last(run).pcs| > 0
    ensures SafeFrom(run) <==> Clean(Last(run))
  {
    if Clean(Last(run)) {
      forall longer | Continues(run, longer) ensures OnceSince(Last(longer).sh.calls, Last(run).sh.calls) {
        ExactlyOnce(longer, |run| - 1, |longer| - 1);
      }
    } else {
      var longer, c := LeftOverBreaks(run, 0);
      assert Continues(run, longer);
      assert !OnceSince(Last(longer).sh.calls, Last(run).sh.calls);
    }
  }
}
