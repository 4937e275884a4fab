/** The messages of the executor over whole runs: what is enqueued, in which order it is handled, which
    calls have a message, and what becomes of a call that finds no room for its own. */
module ExecutorMessages {
  import opened Common
  import opened Executor

  // ----- first in, first out -----

  function Added(queue: seq<Msg>, after: seq<Msg>): seq<Msg> {
    if |queue| < |after| then after[|queue|..] else []
  }

  function Removed(queue: seq<Msg>, after: seq<Msg>): seq<Msg> {
    if |after| < |queue| then queue[..|queue| - |after|] else []
  }

  /** The messages enqueued up to a point of a run, in order. */
  function Enqueued(run: seq<State>, k: nat): seq<Msg>
    requires k < |run|
  {
    if k == 0 then [] else Enqueued(run, k - 1) + Added(run[k - 1].sh.queue, run[k].sh.queue)
  }

  /** The messages that the scheduler task has taken, in order. */
  function Handled(run: seq<State>, k: nat): seq<Msg>
    requires k < |run|
  {
    if k == 0 then [] else Handled(run, k - 1) + Removed(run[k - 1].sh.queue, run[k].sh.queue)
  }

  /** A step appends one message, and then there was room, or takes the first one, or leaves the queue alone. */
  lemma QueueStep(s: State, t: State)
    requires Next(s, t)
    ensures t.sh.capacity == s.sh.capacity
    ensures
      || t.sh.queue == s.sh.queue
      || (|s.sh.queue| < s.sh.capacity && |t.sh.queue| == |s.sh.queue| + 1 && s.sh.queue <= t.sh.queue)
      || (s.sh.queue != [] && t.sh.queue == s.sh.queue[1..])
  {}

  lemma AccountStep(enqueued: seq<Msg>, handled: seq<Msg>, queue: seq<Msg>, after: seq<Msg>)
    requires enqueued == handled + queue
    requires after == queue || queue <= after || (queue != [] && after == queue[1..])
    ensures enqueued + Added(queue, after) == handled + Removed(queue, after) + after
  {
    if queue != [] && after == queue[1..] {
      assert queue == queue[..1] + after;
    } else {
      assert after == queue + Added(queue, after);
    }
  }

  /** In every run: what was enqueued is what the scheduler task has taken followed by what is queued, in
      order, and the queue never exceeds its capacity. */
  lemma {:induction false} FirstInFirstOut(run: seq<State>, k: nat)
    requires IsRun(run) && k < |run|
    ensures Enqueued(run, k) == Handled(run, k) + run[k].sh.queue
    ensures |run[k].sh.queue| <= run[k].sh.capacity == run[0].sh.capacity
  {
    if k == 0 {
    } else {
      FirstInFirstOut(run, k - 1);
      assert StepAt(run, k - 1);
      QueueStep(run[k - 1], run[k]);
      AccountStep(Enqueued(run, k - 1), Handled(run, k - 1), run[k - 1].sh.queue, run[k].sh.queue);
    }
  }

  // ----- one message for a call that was sent, none for another -----

  predicate IsSent(s: State, c: nat) {
    c < |s.sh.calls| && s.sh.calls[c].sent
  }

  /** A call has its message enqueued in a step that starts with room and appends it, and in no other; and a
      wait message is appended for no other reason. */
  lemma SentStep(s: State, t: State, c: nat)
    requires Inv(s) && Next(s, t)
    ensures IsSent(s, c) ==> IsSent(t, c)
    ensures !IsSent(s, c) && IsSent(t, c) ==> |s.sh.queue| < s.sh.capacity && t.sh.queue == s.sh.queue + [WaitMsg(c)]
    ensures multiset(Added(s.sh.queue, t.sh.queue))[WaitMsg(c)] == if !IsSent(s, c) && IsSent(t, c) then 1 else 0
  {
    if exists i: nat, a :: StepOfTask(s, i, a, t) {
      var i: nat, a :| StepOfTask(s, i, a, t);
      assert TaskOk(s.sh, i, s.pcs[i]);
      TaskSent(s.sh, i, s.pcs[i], a, c);
    } else {
      var a :| StepOfHandler(s, a, t);
      HandlerSent(s, a, t, c);
    }
  }

  lemma TaskSent(sh: Shared, i: nat, pc: Pc, a: Action, c: nat)
    requires TaskOk(sh, i, pc) && TaskStep(sh, i, pc, a).Move?
    ensures var t := TaskStep(sh, i, pc, a).sh;
      if a.Go? && pc == In(Send, c) then
        && |sh.queue| < sh.capacity && t.queue == sh.queue + [WaitMsg(c)]
        && !sh.calls[c].sent && |t.calls| == |sh.calls| && t.calls[c].sent
        && Added(sh.queue, t.queue) == [WaitMsg(c)]
      else
        && |sh.calls| <= |t.calls| && (c < |sh.calls| ==> t.calls[c].sent == sh.calls[c].sent)
        && (|sh.calls| <= c < |t.calls| ==> !t.calls[c].sent) && WaitMsg(c) !in Added(sh.queue, t.queue)
  {
    TaskCalls(sh, i, pc, a);
  }

  lemma HandlerSent(s: State, a: HandlerAction, t: State, c: nat)
    requires Inv(s) && StepOfHandler(s, a, t)
    ensures IsSent(t, c) == IsSent(s, c) && Added(s.sh.queue, t.sh.queue) == []
  {
    var pc := Holder(s);
    if pc.In? { assert TaskOk(s.sh, s.sh.apiLock.value, pc); }
    HandlerCalls(pc, s.h, s.sh, a);
    HandlerKeeps(s, a, t);
    HandlerBy(s.sh, s.h, a);
    if c < |t.sh.calls| && t.sh.calls[c].caller.Reentrant? {
      assert CallOk(t.sh.calls[c]);
      if c < |s.sh.calls| { assert CallOk(s.sh.calls[c]); }
    }
  }

  lemma SentInRun(run: seq<State>, k: nat, c: nat)
    requires IsRun(run) && 0 < k < |run|
    ensures IsSent(run[k - 1], c) ==> IsSent(run[k], c)
    ensures !IsSent(run[k - 1], c) && IsSent(run[k], c) ==>
      |run[k - 1].sh.queue| < run[k - 1].sh.capacity && run[k].sh.queue == run[k - 1].sh.queue + [WaitMsg(c)]
    ensures multiset(Added(run[k - 1].sh.queue, run[k].sh.queue))[WaitMsg(c)]
         == if !IsSent(run[k - 1], c) && IsSent(run[k], c) then 1 else 0
  {
    RunKeeps(run, k - 1);
    assert StepAt(run, k - 1);
    SentStep(run[k - 1], run[k], c);
  }

  /** How many messages were enqueued for a call. */
  function Copies(run: seq<State>, k: nat, c: nat): nat
    requires k < |run|
  {
    multiset(Enqueued(run, k))[WaitMsg(c)]
  }

  lemma CopiesStep(run: seq<State>, k: nat, c: nat)
    requires 0 < k < |run|
    ensures Copies(run, k, c)
         == Copies(run, k - 1, c) + multiset(Added(run[k - 1].sh.queue, run[k].sh.queue))[WaitMsg(c)]
  {
    var before, added := Enqueued(run, k - 1), Added(run[k - 1].sh.queue, run[k].sh.queue);
    assert multiset(before + added) == multiset(before) + multiset(added);
  }

  lemma OneMessageStep(run: seq<State>, k: nat, c: nat)
    requires IsRun(run) && 0 < k < |run| && Copies(run, k - 1, c) == if IsSent(run[k - 1], c) then 1 else 0
    ensures Copies(run, k, c) == if IsSent(run[k], c) then 1 else 0
  {
    SentInRun(run, k, c);
    CopiesStep(run, k, c);
  }

  /** In every run, for every call: exactly one message was enqueued for it if it is marked as sent, and none
      if it is not. */
  lemma {:induction false} OneMessageEach(run: seq<State>, k: nat, c: nat)
    requires IsRun(run) && k < |run|
    ensures Copies(run, k, c) == if IsSent(run[k], c) then 1 else 0
  {
    if k == 0 {
    } else {
      OneMessageEach(run, k - 1, c);
      OneMessageStep(run, k, c);
    }
  }

  lemma UnsentHasNone(run: seq<State>, k: nat, c: nat)
    requires IsRun(run) && k < |run| && !IsSent(run[k], c)
    ensures WaitMsg(c) !in Enqueued(run, k) && WaitMsg(c) !in Handled(run, k) && WaitMsg(c) !in run[k].sh.queue
  {
    OneMessageEach(run, k, c);
    FirstInFirstOut(run, k);
    assert WaitMsg(c) !in multiset(Enqueued(run, k));
    assert forall m :: m in Handled(run, k) || m in run[k].sh.queue ==> m in Handled(run, k) + run[k].sh.queue;
  }

  /** In every run: a call marked as sent was marked in a step that started with room. */
  lemma {:induction false} SentWithRoom(run: seq<State>, k: nat, c: nat) returns (j: nat)
    requires IsRun(run) && k < |run| && IsSent(run[k], c)
    ensures j < k && !IsSent(run[j], c) && IsSent(run[j + 1], c)
    ensures |run[j].sh.queue| < run[j].sh.capacity && run[j + 1].sh.queue == run[j].sh.queue + [WaitMsg(c)]
  {
    SentInRun(run, k, c);
    if IsSent(run[k - 1], c) {
      j := SentWithRoom(run, k - 1, c);
    } else {
      j := k - 1;
    }
  }

  // ----- a call that finds no room -----

  /** On a full queue a call that is to send can only wait, or give up: it then has changed nothing and clears
      the slot; an asynchronous call leaves the queue as it is. */
  lemma FullQueue(sh: Shared, i: nat, c: nat)
    requires |sh.queue| >= sh.capacity
    ensures TaskStep(sh, i, In(Send, c), Go).Stuck?
    ensures TaskStep(sh, i, In(Send, c), GiveUp) == Move(sh, In(ClearLock, c))
    ensures TaskStep(sh, i, Idle, CallAsync) == Move(sh, Idle)
  {}

  /** With room, a call enqueues its message and an asynchronous call its own, at the end. */
  lemma RoomInQueue(sh: Shared, i: nat, c: nat)
    requires |sh.queue| < sh.capacity && c < |sh.calls|
    ensures var m := TaskStep(sh, i, In(Send, c), Go);
      && m.Move? && m.pc == In(WaitSem, c) && m.sh.queue == sh.queue + [WaitMsg(c)]
      && m.sh == sh.(queue := m.sh.queue, calls := sh.calls[c := sh.calls[c].(sent := true)])
    ensures TaskStep(sh, i, Idle, CallAsync) == Move(sh.(queue := sh.queue + [OtherMsg]), Idle)
  {}

  /** The call of the task gave up on its message: it is on its way to return failure, or has. */
  predicate GaveUp(s: State, i: nat, c: nat) {
    && i < |s.pcs| && c < |s.sh.calls| && s.sh.calls[c].caller == Of(i) && !s.sh.calls[c].sent
    && (|| s.sh.calls[c].ret == Some(false)
        || s.pcs[i] == In(ClearLock, c) || s.pcs[i] == In(ClearHeld, c) || s.pcs[i] == In(ReleaseApi(false), c))
  }

  lemma GaveUpStep(s: State, t: State, i: nat, c: nat)
    requires Inv(s) && Next(s, t) && GaveUp(s, i, c)
    ensures GaveUp(t, i, c)
  {
    if s.sh.calls[c].ret.Some? {
      ReturnedIsFrozen(s, t, c);
    } else if exists j: nat, a :: StepOfTask(s, j, a, t) {
      var j: nat, a :| StepOfTask(s, j, a, t);
      GaveUpTask(s, j, a, t, i, c);
    } else {
      var a :| StepOfHandler(s, a, t);
      GaveUpHandler(s, a, t, i, c);
    }
  }

  lemma GaveUpTask(s: State, j: nat, a: Action, t: State, i: nat, c: nat)
    requires Inv(s) && StepOfTask(s, j, a, t) && GaveUp(s, i, c) && s.sh.calls[c].ret.None?
    ensures GaveUp(t, i, c)
  {
    assert TaskOk(s.sh, j, s.pcs[j]);
    TaskCalls(s.sh, j, s.pcs[j], a);
  }

  lemma GaveUpHandler(s: State, a: HandlerAction, t: State, i: nat, c: nat)
    requires Inv(s) && StepOfHandler(s, a, t) && GaveUp(s, i, c) && s.sh.calls[c].ret.None?
    ensures GaveUp(t, i, c)
  {
    var pc := Holder(s);
    if pc.In? { assert TaskOk(s.sh, s.sh.apiLock.value, pc); }
    HandlerCalls(pc, s.h, s.sh, a);
  }

  lemma GaveUpInRun(run: seq<State>, k: nat, i: nat, c: nat)
    requires IsRun(run) && k + 1 < |run| && GaveUp(run[k], i, c)
    ensures GaveUp(run[k + 1], i, c)
  {
    RunKeeps(run, k);
    assert StepAt(run, k);
    GaveUpStep(run[k], run[k + 1], i, c);
  }

  lemma {:induction false} GaveUpAlong(run: seq<State>, j: nat, k: nat, i: nat, c: nat)
    requires IsRun(run) && j <= k < |run| && GaveUp(run[j], i, c)
    ensures GaveUp(run[k], i, c)
    decreases k
  {
    if j == k {
    } else {
      GaveUpAlong(run, j, k - 1, i, c);
      GaveUpInRun(run, k - 1, i, c);
    }
  }

  /** In every run: a call that gave up on sending never has a message, and if it returns, it returns failure. */
  lemma GivesUpUnsent(run: seq<State>, j: nat, k: nat, i: nat, c: nat)
    requires IsRun(run) && j <= k < |run| && i < |run[j].pcs| && run[j].pcs[i] == In(ClearLock, c)
    ensures c < |run[k].sh.calls| && !run[k].sh.calls[c].sent
    ensures run[k].sh.calls[c].ret.Some? ==> run[k].sh.calls[c].ret == Some(false)
    ensures WaitMsg(c) !in Enqueued(run, k) && WaitMsg(c) !in Handled(run, k) && WaitMsg(c) !in run[k].sh.queue
  {
    RunKeeps(run, j);
    assert TaskOk(run[j].sh, i, run[j].pcs[i]);
    GaveUpAlong(run, j, k, i, c);
    RunKeeps(run, k);
    assert TaskOk(run[k].sh, i, run[k].pcs[i]);
    UnsentHasNone(run, k, c);
  }
}
