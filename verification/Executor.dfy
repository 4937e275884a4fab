/** The blocking executor of sched_executor.c as a system of interleaved steps. Callers hand a callback
    to the scheduler task through the one task slot and wait; the scheduler task takes messages from a
    bounded FIFO and runs whatever callback the slot holds. A message carries no data of its own, so a
    message left behind by a call that timed out may serve a later call. */
module Executor {
  import opened Common

  datatype Owner = ByCaller(task: nat) | ByHandler

  datatype Msg = WaitMsg(call: nat) | OtherMsg

  /** The task slot: callback, result pointer and output pointer each name the call they belong to. */
  datatype TaskInfo = TaskInfo(cb: Option<nat>, errcode: Option<nat>, outData: Option<nat>, finish: bool)

  const EMPTY: TaskInfo := TaskInfo(None, None, None, false)

  function SlotOf(call: nat, finish: bool): TaskInfo {
    TaskInfo(Some(call), Some(call), Some(call), finish)
  }

  /** Who makes a call: a task, or a callback that is running on the scheduler task itself. */
  datatype Caller = Of(task: nat) | Reentrant

  /** One run of a callback: what it returned and what it wrote out. */
  datatype Ran = Ran(value: int, data: int)

  /** History of a call: the runs of its callback, the values its two output cells hold, whether its
      message was enqueued, and what it returned. */
  datatype Call = Call(
    caller: Caller, runs: seq<Ran>, errcode: Option<int>, outData: Option<int>, sent: bool, ret: Option<bool>)

  function NewCall(caller: Caller): Call {
    Call(caller, [], None, None, false, None)
  }

  /** The stages of a call, the ones ending in Held own the task lock. */
  datatype Stage =
    | WantApi
    | SetLock | SetHeld                 // SetTaskInfo
    | Send
    | ClearLock | ClearHeld             // ClearTaskInfo
    | WaitSem
    | ResultLock(woken: bool) | ResultHeld(woken: bool) | DrainHeld | LeaveHeld(ok: bool)  // GetTaskResult
    | ReleaseApi(ok: bool)

  datatype Pc = Idle | In(stage: Stage, call: nat)

  /** The scheduler task: idle, with a message in hand, running another message's handler, or inside
      the wait handler with the task lock. */
  datatype Handler =
    | HIdle | HGot(wait: bool) | HOther
    | HHeld | HRunning | HRan | HPost | HUnlock

  datatype Shared = Shared(
    apiLock: Option<nat>,
    taskLock: Option<Owner>,
    waitSem: nat,
    info: TaskInfo,
    queue: seq<Msg>,
    capacity: nat,
    calls: seq<Call>,
    nested: seq<nat>,   // the re-entrant calls in progress, the innermost last
    stale: nat)         // history: how many calls timed out after their message had been enqueued

  datatype State = State(pcs: seq<Pc>, h: Handler, sh: Shared)

  datatype Action = CallWait | CallAsync | Go | GiveUp

  datatype Move = Stuck | Move(sh: Shared, pc: Pc)

  function TakeTaskLock(sh: Shared, i: nat, pc: Pc): Move {
    if sh.taskLock.None? then Move(sh.(taskLock := Some(ByCaller(i))), pc) else Stuck
  }

  function Return(sh: Shared, call: nat, ok: bool): Shared {
    if call < |sh.calls| then sh.(calls := sh.calls[call := sh.calls[call].(ret := Some(ok))]) else sh
  }

  function MarkSent(sh: Shared, call: nat): Shared {
    if call < |sh.calls| then sh.(calls := sh.calls[call := sh.calls[call].(sent := true)]) else sh
  }

  /** GiveUp is the timeout of a timed primitive (or, at Send, any failure to enqueue). */
  function CallStep(sh: Shared, i: nat, stage: Stage, call: nat, a: Action): Move {
    match stage
    case WantApi =>
      if a.Go? && sh.apiLock.None? then Move(sh.(apiLock := Some(i)), In(SetLock, call))
      else if a.GiveUp? then Move(Return(sh, call, false), Idle)
      else Stuck
    case SetLock =>
      if a.Go? then TakeTaskLock(sh, i, In(SetHeld, call))
      else if a.GiveUp? then Move(sh, In(ReleaseApi(false), call))
      else Stuck
    case SetHeld =>
      if a.Go? then Move(sh.(info := SlotOf(call, false), taskLock := None), In(Send, call)) else Stuck
    case Send =>
      if a.Go? && |sh.queue| < sh.capacity
      then Move(MarkSent(sh, call).(queue := sh.queue + [WaitMsg(call)]), In(WaitSem, call))
      else if a.GiveUp? then Move(sh, In(ClearLock, call))
      else Stuck
    case ClearLock => if a.Go? then TakeTaskLock(sh, i, In(ClearHeld, call)) else Stuck
    case ClearHeld =>
      if a.Go? then Move(sh.(info := EMPTY, taskLock := None), In(ReleaseApi(false), call)) else Stuck
    case WaitSem =>
      if a.Go? && sh.waitSem > 0 then Move(sh.(waitSem := sh.waitSem - 1), In(ResultLock(true), call))
      else if a.GiveUp? then Move(sh, In(ResultLock(false), call))
      else Stuck
    case ResultLock(woken) => if a.Go? then TakeTaskLock(sh, i, In(ResultHeld(woken), call)) else Stuck
    case ResultHeld(woken) =>
      if !a.Go? then Stuck
      else if !sh.info.finish then Move(sh.(stale := sh.stale + if woken then 0 else 1), In(LeaveHeld(false), call))
      else Move(sh, In(if woken then LeaveHeld(true) else DrainHeld, call))
    case DrainHeld =>
      if a.Go?
      then Move(sh.(waitSem := if sh.waitSem > 0 then sh.waitSem - 1 else 0), In(LeaveHeld(true), call))
      else Stuck
    case LeaveHeld(ok) =>
      if a.Go? then Move(sh.(info := EMPTY, taskLock := None), In(ReleaseApi(ok), call)) else Stuck
    case ReleaseApi(ok) =>
      if a.Go? then Move(Return(sh, call, ok).(apiLock := None), Idle) else Stuck
  }

  function TaskStep(sh: Shared, i: nat, pc: Pc, a: Action): Move {
    match pc
    case In(stage, call) => CallStep(sh, i, stage, call, a)
    case Idle =>
      if a.CallWait?
      then Move(sh.(calls := sh.calls + [NewCall(Of(i))]), In(WantApi, |sh.calls|))
      else if a.CallAsync?
      then Move(if |sh.queue| < sh.capacity then sh.(queue := sh.queue + [OtherMsg]) else sh, Idle)
      else Stuck
  }

  /** What the scheduler task does next; value and data are what a callback returns and writes out. A
      callback may itself make a blocking call: the call begins its own callback at once, which may make
      further ones, and returns when that callback does. */
  datatype HandlerAction = HGo(value: int, data: int) | NestedCall | NestedReturn(value: int, data: int)

  datatype HandlerMove = HStuck | HMove(sh: Shared, h: Handler)

  /** Runs the callback of the slot and writes through the pointers of the slot. */
  function RunSlot(sh: Shared, value: int, data: int): Shared
    requires sh.info.cb.Some? && sh.info.cb.value < |sh.calls|
    requires sh.info.errcode.Some? && sh.info.errcode.value < |sh.calls|
    requires sh.info.outData.Some? && sh.info.outData.value < |sh.calls|
  {
    var TaskInfo(cb, errcode, outData, _) := sh.info;
    var c1 := sh.calls[cb.value := sh.calls[cb.value].(runs := sh.calls[cb.value].runs + [Ran(value, data)])];
    var c2 := c1[outData.value := c1[outData.value].(outData := Some(data))];
    var c3 := c2[errcode.value := c2[errcode.value].(errcode := Some(value))];
    sh.(calls := c3)
  }

  predicate Runnable(sh: Shared) {
    && sh.info.cb.Some? && sh.info.cb.value < |sh.calls|
    && sh.info.errcode.Some? && sh.info.errcode.value < |sh.calls|
    && sh.info.outData.Some? && sh.info.outData.value < |sh.calls|
  }

  /** A callback is running on the scheduler task. */
  predicate InCallback(h: Handler) {
    h.HRunning? || h.HOther?
  }

  function BeginNested(sh: Shared): Shared {
    sh.(calls := sh.calls + [NewCall(Reentrant)], nested := sh.nested + [|sh.calls|])
  }

  /** The innermost re-entrant call returns: its result cell takes the result of its callback. */
  function EndNested(sh: Shared, value: int, data: int): Shared
    requires sh.nested != [] && sh.nested[|sh.nested| - 1] < |sh.calls|
  {
    var c := sh.nested[|sh.nested| - 1];
    var call := sh.calls[c];
    sh.(nested := sh.nested[..|sh.nested| - 1],
        calls := sh.calls[c := call.(runs := call.runs + [Ran(value, data)], errcode := Some(value),
                                     outData := Some(data), ret := Some(true))])
  }

  function HandlerStep(sh: Shared, h: Handler, a: HandlerAction): HandlerMove {
    match a
    case NestedCall => if InCallback(h) then HMove(BeginNested(sh), h) else HStuck
    case NestedReturn(value, data) =>
      if InCallback(h) && sh.nested != [] && sh.nested[|sh.nested| - 1] < |sh.calls|
      then HMove(EndNested(sh, value, data), h)
      else HStuck
    case HGo(value, data) =>
      if sh.nested != [] then HStuck else HandlerGo(sh, h, value, data)
  }

  function HandlerGo(sh: Shared, h: Handler, value: int, data: int): HandlerMove {
    match h
    case HIdle =>
      if sh.queue == [] then HStuck
      else HMove(sh.(queue := sh.queue[1..]), HGot(sh.queue[0].WaitMsg?))
    case HGot(wait) =>
      if !wait then HMove(sh, HOther)
      else if sh.taskLock.None? then HMove(sh.(taskLock := Some(ByHandler)), HHeld)
      else HStuck
    case HOther => HMove(sh, HIdle)
    case HHeld => HMove(sh, if sh.info.cb.Some? && sh.info.errcode.Some? then HRunning else HUnlock)
    case HRunning => if Runnable(sh) then HMove(RunSlot(sh, value, data), HRan) else HStuck
    case HRan => HMove(sh.(info := sh.info.(finish := true)), HPost)
    case HPost => HMove(sh.(waitSem := sh.waitSem + 1), HUnlock)
    case HUnlock => HMove(sh.(taskLock := None), HIdle)
  }

  ghost predicate StepOfTask(s: State, i: nat, a: Action, t: State) {
    && i < |s.pcs| == |t.pcs| && t.pcs == s.pcs[i := t.pcs[i]] && t.h == s.h
    && TaskStep(s.sh, i, s.pcs[i], a) == Move(t.sh, t.pcs[i])
  }

  ghost predicate StepOfHandler(s: State, a: HandlerAction, t: State) {
    t.pcs == s.pcs && HandlerStep(s.sh, s.h, a) == HMove(t.sh, t.h)
  }

  ghost predicate Next(s: State, t: State) {
    || (exists i: nat, a :: StepOfTask(s, i, a, t))
    || (exists a :: StepOfHandler(s, a, t))
  }

  predicate Init(s: State) {
    && (forall i :: 0 <= i < |s.pcs| ==> s.pcs[i].Idle?)
    && s.h.HIdle? && s.sh.capacity > 0
    && s.sh == Shared(None, None, 0, EMPTY, [], s.sh.capacity, [], [], 0)
  }

  ghost predicate StepAt(run: seq<State>, k: nat) {
    k + 1 < |run| && Next(run[k], run[k + 1])
  }

  ghost predicate IsRun(run: seq<State>) {
    && run != [] && Init(run[0])
    && forall k: nat :: k < |run| - 1 ==> StepAt(run, k)
  }

  // ----- invariant -----

  predicate HoldsApi(pc: Pc) { pc.In? && !pc.stage.WantApi? }

  predicate HoldsTask(pc: Pc) {
    && pc.In?
    && (pc.stage.SetHeld? || pc.stage.ClearHeld? || pc.stage.ResultHeld? || pc.stage.DrainHeld? || pc.stage.LeaveHeld?)
  }

  predicate HandlerHoldsTask(h: Handler) {
    h.HHeld? || h.HRunning? || h.HRan? || h.HPost? || h.HUnlock?
  }

  /** The stages during which the slot names the call. */
  predicate InSlot(pc: Pc) {
    pc.In? && (pc.stage.Send? || pc.stage.ClearLock? || pc.stage.ClearHeld? || pc.stage.WaitSem? || pc.stage.ResultLock?
               || pc.stage.ResultHeld? || pc.stage.DrainHeld? || pc.stage.LeaveHeld?)
  }

  /** The stages from which the call is bound to return success. */
  predicate Succeeds(pc: Pc) {
    pc.In? && (pc.stage.DrainHeld? || pc.stage == LeaveHeld(true) || pc.stage == ReleaseApi(true))
  }

  /** The output cells of a call hold the results of the last run of its own callback, and a call that
      returned success has been run; a re-entrant call has run exactly once when it returns, and returns
      success. */
  predicate CallOk(c: Call) {
    && (c.errcode == if c.runs == [] then None else Some(c.runs[|c.runs| - 1].value))
    && (c.outData == if c.runs == [] then None else Some(c.runs[|c.runs| - 1].data))
    && (c.ret == Some(true) ==> c.runs != [])
    && (c.caller.Reentrant? ==> !c.sent && if c.ret.None? then c.runs == [] else c.ret.value && |c.runs| == 1)
  }

  /** The call has not enqueued its message, or has given up on it. */
  predicate NotSent(pc: Pc) {
    && pc.In?
    && (pc.stage.WantApi? || pc.stage.SetLock? || pc.stage.SetHeld? || pc.stage.Send?
        || pc.stage.ClearLock? || pc.stage.ClearHeld?)
  }

  /** The call has enqueued its message. */
  predicate AfterSend(pc: Pc) {
    && pc.In?
    && (pc.stage.WaitSem? || pc.stage.ResultLock? || pc.stage.ResultHeld? || pc.stage.DrainHeld? || pc.stage.LeaveHeld?)
  }

  predicate TaskOk(sh: Shared, i: nat, pc: Pc) {
    && (HoldsApi(pc) <==> sh.apiLock == Some(i))
    && (HoldsTask(pc) <==> sh.taskLock == Some(ByCaller(i)))
    && (pc.In? ==> pc.call < |sh.calls| && sh.calls[pc.call].caller == Of(i) && sh.calls[pc.call].ret.None?)
    && (pc.In? && pc.stage.WantApi? ==> sh.calls[pc.call].runs == [])
    && (NotSent(pc) ==> !sh.calls[pc.call].sent)
    && (AfterSend(pc) || (pc.In? && pc.stage == ReleaseApi(true)) ==> sh.calls[pc.call].sent)
  }

  /** The re-entrant calls in progress are distinct calls of callbacks that have not returned. */
  predicate NestOk(h: Handler, sh: Shared) {
    && (sh.nested != [] ==> InCallback(h))
    && (forall k :: 0 <= k < |sh.nested| ==>
          sh.nested[k] < |sh.calls| && sh.calls[sh.nested[k]].caller.Reentrant? && sh.calls[sh.nested[k]].ret.None?)
    && (forall j, k :: 0 <= j < k < |sh.nested| ==> sh.nested[j] != sh.nested[k])
  }

  function Holder(s: State): Pc {
    if s.sh.apiLock.Some? && s.sh.apiLock.value < |s.pcs| then s.pcs[s.sh.apiLock.value] else Idle
  }

  function Waits(queue: seq<Msg>): nat {
    if queue == [] then 0 else Waits(queue[..|queue| - 1]) + if queue[|queue| - 1].WaitMsg? then 1 else 0
  }

  /** The handler has a wait message in hand and has not posted for it yet. */
  predicate BeforePost(h: Handler) {
    (h.HGot? && h.wait) || h.HHeld? || h.HRunning? || h.HRan? || h.HPost?
  }

  /** How the call that owns the API lock, the scheduler task and the shared state fit together. */
  predicate SlotOk(pc: Pc, h: Handler, sh: Shared) {
    && (HandlerHoldsTask(h) <==> sh.taskLock == Some(ByHandler))
    && (sh.taskLock.Some? && sh.taskLock.value.ByCaller? ==> HoldsTask(pc))
    && (pc.In? ==> pc.call < |sh.calls|)
    && sh.info == (if InSlot(pc) then SlotOf(pc.call, sh.info.finish) else EMPTY)
    && (h.HRunning? || h.HRan? || h.HPost? ==> InSlot(pc))
    && (h.HRan? || h.HPost? || sh.info.finish || Succeeds(pc) ==> pc.In? && sh.calls[pc.call].runs != [])
    && (pc.In? && (pc.stage.DrainHeld? || pc.stage == LeaveHeld(true)) ==> sh.info.finish)
  }

  /** The stages in which a token for the call has not been taken. */
  predicate Untaken(pc: Pc) {
    && pc.In?
    && (pc.stage.Send? || pc.stage.WaitSem? || pc.stage == ResultLock(false) || pc.stage == ResultHeld(false)
        || pc.stage.DrainHeld?)
  }

  /** A call that waits has a token, or a message that will produce one; and one whose callback has finished
      has its token as soon as the scheduler task has posted. */
  predicate WakeOk(pc: Pc, h: Handler, sh: Shared) {
    && (Untaken(pc) && sh.info.finish && !h.HPost? ==> sh.waitSem > 0)
    && (h.HUnlock? && pc.In? && (pc.stage.Send? || pc.stage.WaitSem?) ==> sh.waitSem > 0)
    && (pc.In? && pc.stage.WaitSem? ==> sh.waitSem > 0 || Waits(sh.queue) > 0 || BeforePost(h))
  }

  predicate CoreOk(pc: Pc, h: Handler, sh: Shared) {
    SlotOk(pc, h, sh) && WakeOk(pc, h, sh)
  }

  predicate Inv(s: State) {
    && s.sh.capacity > 0 && |s.sh.queue| <= s.sh.capacity
    && (s.sh.apiLock.Some? ==> s.sh.apiLock.value < |s.pcs|)
    && (s.sh.taskLock.Some? && s.sh.taskLock.value.ByCaller? ==> s.sh.apiLock == Some(s.sh.taskLock.value.task))
    && (forall i :: 0 <= i < |s.pcs| ==> TaskOk(s.sh, i, s.pcs[i]))
    && (forall c :: 0 <= c < |s.sh.calls| ==> CallOk(s.sh.calls[c]))
    && CoreOk(Holder(s), s.h, s.sh) && NestOk(s.h, s.sh)
  }

  // ----- every step keeps the invariant -----

  lemma WaitsAppend(queue: seq<Msg>, m: Msg)
    ensures Waits(queue + [m]) == Waits(queue) + if m.WaitMsg? then 1 else 0
  {
    assert (queue + [m])[..|queue|] == queue;
  }

  lemma {:induction false} WaitsTail(queue: seq<Msg>)
    requires queue != []
    ensures Waits(queue) == Waits(queue[1..]) + if queue[0].WaitMsg? then 1 else 0
  {
    if |queue| == 1 {
    } else {
      var init := queue[..|queue| - 1];
      WaitsTail(init);
      assert init[1..] == queue[1..][..|queue| - 2];
    }
  }

  lemma HandlerCore(pc: Pc, h: Handler, sh: Shared, a: HandlerAction)
    requires CoreOk(pc, h, sh) && NestOk(h, sh) && HandlerStep(sh, h, a).HMove?
    requires pc.In? ==> sh.calls[pc.call].caller.Of?
    ensures var m := HandlerStep(sh, h, a); CoreOk(pc, m.h, m.sh)
  {
    if h.HIdle? && sh.queue != [] { WaitsTail(sh.queue); }
  }

  /** Two stages of the history of one call that differ only in its runs and output cells. */
  predicate SameCall(c: Call, d: Call) {
    c.caller == d.caller && c.ret == d.ret && c.sent == d.sent
  }

  /** The scheduler task changes the cells of the call in the slot, and of the innermost re-entrant call
      when that returns, and of no other; neither has returned before. */
  lemma HandlerCalls(pc: Pc, h: Handler, sh: Shared, a: HandlerAction)
    requires CoreOk(pc, h, sh) && NestOk(h, sh) && HandlerStep(sh, h, a).HMove?
    requires pc.In? ==> sh.calls[pc.call].caller.Of?
    requires forall c :: 0 <= c < |sh.calls| ==> CallOk(sh.calls[c])
    ensures var calls := HandlerStep(sh, h, a).sh.calls;
      && |sh.calls| <= |calls|
      && (forall c :: 0 <= c < |sh.calls| && !(InSlot(pc) && c == pc.call)
                      && (sh.calls[c].caller.Of? || sh.calls[c].ret.Some?) ==>
            calls[c] == sh.calls[c])
      && (InSlot(pc) ==> SameCall(sh.calls[pc.call], calls[pc.call]))
      && (forall c :: 0 <= c < |calls| ==> CallOk(calls[c]))
      && NestOk(HandlerStep(sh, h, a).h, HandlerStep(sh, h, a).sh)
  {
    match a
    case HGo(value, data) => GoCalls(pc, h, sh, value, data);
    case NestedCall =>
    case NestedReturn(value, data) => ReturnCalls(sh, h, value, data);
  }

  lemma GoCalls(pc: Pc, h: Handler, sh: Shared, value: int, data: int)
    requires CoreOk(pc, h, sh) && sh.nested == [] && HandlerGo(sh, h, value, data).HMove?
    requires pc.In? ==> sh.calls[pc.call].caller.Of?
    requires forall c :: 0 <= c < |sh.calls| ==> CallOk(sh.calls[c])
    ensures var m := HandlerGo(sh, h, value, data);
      && |m.sh.calls| == |sh.calls| && m.sh.nested == []
      && (forall c :: 0 <= c < |sh.calls| && !(InSlot(pc) && c == pc.call) ==> m.sh.calls[c] == sh.calls[c])
      && (InSlot(pc) ==> SameCall(sh.calls[pc.call], m.sh.calls[pc.call]))
      && (forall c :: 0 <= c < |sh.calls| ==> CallOk(m.sh.calls[c]))
  {}

  lemma ReturnCalls(sh: Shared, h: Handler, value: int, data: int)
    requires NestOk(h, sh) && sh.nested != []
    requires forall c :: 0 <= c < |sh.calls| ==> CallOk(sh.calls[c])
    ensures var t := EndNested(sh, value, data);
      && |t.calls| == |sh.calls| && NestOk(h, t)
      && (forall c :: 0 <= c < |sh.calls| && c != sh.nested[|sh.nested| - 1] ==> t.calls[c] == sh.calls[c])
      && (forall c :: 0 <= c < |t.calls| ==> CallOk(t.calls[c]))
  {
    var top := sh.nested[|sh.nested| - 1];
    assert CallOk(sh.calls[top]) && sh.calls[top].caller.Reentrant?;
  }

  lemma HandlerKeeps(s: State, a: HandlerAction, t: State)
    requires Inv(s) && StepOfHandler(s, a, t)
    ensures Inv(t)
  {
    var pc := Holder(s);
    if pc.In? { assert TaskOk(s.sh, s.sh.apiLock.value, pc); }
    HandlerCore(pc, s.h, s.sh, a);
    HandlerCalls(pc, s.h, s.sh, a);
    forall i | 0 <= i < |t.pcs| ensures TaskOk(t.sh, i, t.pcs[i]) {
      assert TaskOk(s.sh, i, s.pcs[i]);
    }
  }

  /** The owner of the API lock after the task's step. */
  function OwnerAfter(m: Move): Pc
    requires m.Move?
  {
    if HoldsApi(m.pc) then m.pc else Idle
  }

  lemma HolderSlot(sh: Shared, i: nat, pc: Pc, h: Handler, a: Action)
    requires TaskOk(sh, i, pc) && TaskStep(sh, i, pc, a).Move?
    requires HoldsApi(pc) && SlotOk(pc, h, sh)
    ensures var m := TaskStep(sh, i, pc, a); SlotOk(OwnerAfter(m), h, m.sh)
  {
    if AfterSend(pc) { HolderSlotLate(sh, i, pc, h, a); } else { HolderSlotEarly(sh, i, pc, h, a); }
  }

  lemma HolderSlotEarly(sh: Shared, i: nat, pc: Pc, h: Handler, a: Action)
    requires TaskOk(sh, i, pc) && TaskStep(sh, i, pc, a).Move? && !AfterSend(pc)
    requires HoldsApi(pc) && SlotOk(pc, h, sh)
    ensures var m := TaskStep(sh, i, pc, a); SlotOk(OwnerAfter(m), h, m.sh)
  {}

  lemma HolderSlotLate(sh: Shared, i: nat, pc: Pc, h: Handler, a: Action)
    requires TaskOk(sh, i, pc) && TaskStep(sh, i, pc, a).Move? && AfterSend(pc)
    requires HoldsApi(pc) && SlotOk(pc, h, sh)
    ensures var m := TaskStep(sh, i, pc, a); SlotOk(OwnerAfter(m), h, m.sh)
  {}

  lemma HolderWake(sh: Shared, i: nat, pc: Pc, h: Handler, a: Action)
    requires TaskOk(sh, i, pc) && TaskStep(sh, i, pc, a).Move?
    requires HoldsApi(pc) && CoreOk(pc, h, sh)
    ensures var m := TaskStep(sh, i, pc, a); WakeOk(OwnerAfter(m), h, m.sh)
  {
    if pc.stage.Send? { WaitsAppend(sh.queue, WaitMsg(pc.call)); }
  }

  lemma GainCore(sh: Shared, i: nat, pc: Pc, h: Handler, a: Action)
    requires TaskOk(sh, i, pc) && TaskStep(sh, i, pc, a).Move?
    requires !HoldsApi(pc) && HoldsApi(TaskStep(sh, i, pc, a).pc) && CoreOk(Idle, h, sh)
    ensures var m := TaskStep(sh, i, pc, a); CoreOk(m.pc, h, m.sh)
  {}

  /** What another task's step may change under the owner of the API lock. */
  predicate Aside(owner: Pc, sh: Shared, sh': Shared) {
    && sh' == sh.(calls := sh'.calls, queue := sh'.queue)
    && (sh'.queue == sh.queue || sh'.queue == sh.queue + [OtherMsg])
    && |sh.calls| <= |sh'.calls|
    && (owner.In? && owner.call < |sh.calls| ==> sh'.calls[owner.call] == sh.calls[owner.call])
  }

  lemma BystanderAside(sh: Shared, i: nat, pc: Pc, a: Action, owner: Pc)
    requires TaskOk(sh, i, pc) && TaskStep(sh, i, pc, a).Move?
    requires !HoldsApi(pc) && !HoldsApi(TaskStep(sh, i, pc, a).pc)
    requires pc.In? && owner.In? ==> pc.call != owner.call
    ensures Aside(owner, sh, TaskStep(sh, i, pc, a).sh)
  {}

  lemma AsideKeepsCore(owner: Pc, h: Handler, sh: Shared, sh': Shared)
    requires CoreOk(owner, h, sh) && Aside(owner, sh, sh')
    ensures CoreOk(owner, h, sh')
  {
    WaitsAppend(sh.queue, OtherMsg);
  }

  /** What a task's own step does to the calls: it may add one, or mark its own as sent or returned. */
  lemma TaskCalls(sh: Shared, i: nat, pc: Pc, a: Action)
    requires TaskOk(sh, i, pc) && TaskStep(sh, i, pc, a).Move?
    ensures var m := TaskStep(sh, i, pc, a);
      || m.sh.calls == sh.calls
      || (pc.Idle? && m.sh.calls == sh.calls + [NewCall(Of(i))])
      || (pc.In? && pc.stage.Send? && m.sh.calls == sh.calls[pc.call := sh.calls[pc.call].(sent := true)])
      || (pc.In? && m.pc.Idle? && pc.stage.WantApi?
          && m.sh.calls == sh.calls[pc.call := sh.calls[pc.call].(ret := Some(false))])
      || (pc.In? && m.pc.Idle? && pc.stage.ReleaseApi?
          && m.sh.calls == sh.calls[pc.call := sh.calls[pc.call].(ret := Some(pc.stage.ok))])
  {}

  lemma TaskOwn(sh: Shared, i: nat, pc: Pc, a: Action)
    requires TaskOk(sh, i, pc) && TaskStep(sh, i, pc, a).Move?
    ensures var m := TaskStep(sh, i, pc, a); TaskOk(m.sh, i, m.pc)
  {}

  /** The history of every other call stays as it is, and every call stays consistent. */
  lemma CallsKeep(sh: Shared, i: nat, pc: Pc, a: Action)
    requires TaskOk(sh, i, pc) && TaskStep(sh, i, pc, a).Move?
    requires forall c :: 0 <= c < |sh.calls| ==> CallOk(sh.calls[c])
    requires Succeeds(pc) ==> sh.calls[pc.call].runs != []
    ensures var calls := TaskStep(sh, i, pc, a).sh.calls;
      && |sh.calls| <= |calls|
      && (forall c :: 0 <= c < |sh.calls| && (pc.Idle? || c != pc.call) ==> calls[c] == sh.calls[c])
      && (forall c :: 0 <= c < |calls| ==> CallOk(calls[c]))
  {
    TaskCalls(sh, i, pc, a);
  }

  /** How a task's step may move the two locks. */
  lemma TaskLocks(sh: Shared, i: nat, pc: Pc, a: Action)
    requires TaskOk(sh, i, pc) && TaskStep(sh, i, pc, a).Move?
    ensures var m := TaskStep(sh, i, pc, a);
      && (|| m.sh.apiLock == sh.apiLock
          || (sh.apiLock.None? && m.sh.apiLock == Some(i))
          || (sh.apiLock == Some(i) && m.sh.apiLock.None?))
      && (|| m.sh.taskLock == sh.taskLock
          || (sh.taskLock.None? && m.sh.taskLock == Some(ByCaller(i)) && sh.apiLock == m.sh.apiLock == Some(i))
          || (sh.taskLock == Some(ByCaller(i)) && m.sh.taskLock.None?))
      && (m.sh.apiLock == sh.apiLock || m.sh.taskLock == sh.taskLock)
      && (HoldsApi(m.pc) <==> m.sh.apiLock == Some(i))
      && m.sh.capacity == sh.capacity && m.sh.nested == sh.nested
      && (m.sh.queue == sh.queue || (|sh.queue| < sh.capacity && |m.sh.queue| == |sh.queue| + 1))
  {}

  lemma TaskNest(sh: Shared, i: nat, pc: Pc, h: Handler, a: Action)
    requires TaskOk(sh, i, pc) && NestOk(h, sh) && TaskStep(sh, i, pc, a).Move?
    ensures NestOk(h, TaskStep(sh, i, pc, a).sh)
  {
    TaskLocks(sh, i, pc, a);
    TaskCalls(sh, i, pc, a);
  }

  lemma TasksKeep(s: State, i: nat, a: Action, t: State)
    requires Inv(s) && StepOfTask(s, i, a, t)
    ensures forall j :: 0 <= j < |t.pcs| ==> TaskOk(t.sh, j, t.pcs[j])
  {
    var pc := s.pcs[i];
    assert TaskOk(s.sh, i, pc);
    TaskLocks(s.sh, i, pc, a);
    TaskOwn(s.sh, i, pc, a);
    TaskCalls(s.sh, i, pc, a);
    forall j | 0 <= j < |t.pcs| ensures TaskOk(t.sh, j, t.pcs[j]) {
      if j != i { assert TaskOk(s.sh, j, s.pcs[j]); }
    }
  }

  lemma TaskKeeps(s: State, i: nat, a: Action, t: State)
    requires Inv(s) && StepOfTask(s, i, a, t)
    ensures Inv(t)
  {
    var pc, owner := s.pcs[i], Holder(s);
    assert TaskOk(s.sh, i, pc);
    TaskLocks(s.sh, i, pc, a);
    assert HoldsApi(pc) ==> owner == pc;
    CallsKeep(s.sh, i, pc, a);
    TaskNest(s.sh, i, pc, s.h, a);
    TasksKeep(s, i, a, t);
    if HoldsApi(pc) {
      HolderSlot(s.sh, i, pc, s.h, a);
      HolderWake(s.sh, i, pc, s.h, a);
    } else if HoldsApi(t.pcs[i]) {
      GainCore(s.sh, i, pc, s.h, a);
    } else {
      if s.sh.apiLock.Some? { assert TaskOk(s.sh, s.sh.apiLock.value, owner); }
      BystanderAside(s.sh, i, pc, a, owner);
      AsideKeepsCore(owner, s.h, s.sh, t.sh);
    }
  }

  lemma StepKeeps(s: State, t: State)
    requires Inv(s) && Next(s, t)
    ensures Inv(t)
  {
    if exists i: nat, a :: StepOfTask(s, i, a, t) {
      var i: nat, a :| StepOfTask(s, i, a, t);
      TaskKeeps(s, i, a, t);
    } else {
      var a :| StepOfHandler(s, a, t);
      HandlerKeeps(s, a, t);
    }
  }

  lemma {:induction false} RunKeeps(run: seq<State>, k: nat)
    requires IsRun(run) && k < |run|
    ensures Inv(run[k])
  {
    if k == 0 {
    } else {
      RunKeeps(run, k - 1);
      assert StepAt(run, k - 1);
      StepKeeps(run[k - 1], run[k]);
    }
  }

  // ----- safety of the output cells -----

  /** A call that has returned is never touched again: neither its result cell nor its output cell is
      written, and its callback does not run. */
  lemma ReturnedIsFrozen(s: State, t: State, c: nat)
    requires Inv(s) && Next(s, t) && c < |s.sh.calls| && s.sh.calls[c].ret.Some?
    ensures c < |t.sh.calls| && t.sh.calls[c] == s.sh.calls[c]
  {
    if exists i: nat, a :: StepOfTask(s, i, a, t) {
      var i: nat, a :| StepOfTask(s, i, a, t);
      assert TaskOk(s.sh, i, s.pcs[i]);
      TaskCalls(s.sh, i, s.pcs[i], a);
    } else {
      var a :| StepOfHandler(s, a, t);
      var pc := Holder(s);
      if pc.In? { assert TaskOk(s.sh, s.sh.apiLock.value, pc); }
      HandlerCalls(pc, s.h, s.sh, a);
    }
  }

  lemma FrozenInRun(run: seq<State>, k: nat, c: nat)
    requires IsRun(run) && k + 1 < |run|
    requires c < |run[k].sh.calls| && run[k].sh.calls[c].ret.Some?
    ensures c < |run[k + 1].sh.calls| && run[k + 1].sh.calls[c] == run[k].sh.calls[c]
  {
    RunKeeps(run, k);
    assert StepAt(run, k);
    ReturnedIsFrozen(run[k], run[k + 1], c);
  }

  lemma {:induction false} NoWriteAfterReturn(run: seq<State>, k: nat, n: nat, c: nat)
    requires IsRun(run) && k <= n < |run|
    requires c < |run[k].sh.calls| && run[k].sh.calls[c].ret.Some?
    ensures c < |run[n].sh.calls| && run[n].sh.calls[c] == run[k].sh.calls[c]
    decreases n
  {
    if k == n {
    } else {
      NoWriteAfterReturn(run, k, n - 1, c);
      FrozenInRun(run, n - 1, c);
    }
  }

  /** A call that returned success has had its own callback run, and its two cells hold what the last of
      those runs returned and wrote out, whatever stale messages there were. */
  lemma SuccessMeansRun(run: seq<State>, k: nat, c: nat)
    requires IsRun(run) && k < |run|
    requires c < |run[k].sh.calls| && run[k].sh.calls[c].ret == Some(true)
    ensures var call := run[k].sh.calls[c];
      && call.runs != [] && call.errcode == Some(call.runs[|call.runs| - 1].value)
      && call.outData == Some(call.runs[|call.runs| - 1].data)
  {
    RunKeeps(run, k);
    assert CallOk(run[k].sh.calls[c]);
  }

  /** A re-entrant call is served whatever else goes on: it returns success, and its callback has run
      exactly once, with its results in its two cells. */
  lemma ReentrantOnce(run: seq<State>, k: nat, c: nat)
    requires IsRun(run) && k < |run| && c < |run[k].sh.calls|
    requires run[k].sh.calls[c].caller.Reentrant? && run[k].sh.calls[c].ret.Some?
    ensures var call := run[k].sh.calls[c];
      && call.ret == Some(true) && !call.sent && |call.runs| == 1
      && call.errcode == Some(call.runs[0].value) && call.outData == Some(call.runs[0].data)
  {
    RunKeeps(run, k);
    assert CallOk(run[k].sh.calls[c]);
  }

  /** A wait that timed out although the callback had finished always finds the token it has to take. */
  lemma DrainFindsToken(run: seq<State>, k: nat, i: nat)
    requires IsRun(run) && k < |run| && i < |run[k].pcs| && run[k].pcs[i].In? && run[k].pcs[i].stage.DrainHeld?
    ensures run[k].sh.waitSem > 0
    ensures TaskStep(run[k].sh, i, run[k].pcs[i], Go)
         == Move(run[k].sh.(waitSem := run[k].sh.waitSem - 1), In(LeaveHeld(true), run[k].pcs[i].call))
  {
    RunKeeps(run, k);
    assert TaskOk(run[k].sh, i, run[k].pcs[i]);
    assert Holder(run[k]) == run[k].pcs[i];
  }

  // ----- exactly once, from a state with nothing left over until a call times out after enqueuing -----

  /** The handler is bound to serve, or is serving, the slot. */
  predicate Processing(h: Handler, sh: Shared) {
    h == HGot(true) || (h.HHeld? && sh.info.cb.Some?) || h.HRunning? || h.HRan? || h.HPost?
  }

  /** Wait messages enqueued and not yet dealt with. */
  function Outstanding(h: Handler, sh: Shared): nat {
    Waits(sh.queue) + if Processing(h, sh) then 1 else 0
  }

  /** The API lock is free and neither a message nor a token is left over from earlier calls. */
  predicate Clean(s: State) {
    s.sh.apiLock.None? && Outstanding(s.h, s.sh) == 0 && s.sh.waitSem == 0
  }

  /** A call whose message is out and that has not consumed a token for it. */
  predicate NotWoken(pc: Pc) {
    pc.In? && (pc.stage.WaitSem? || pc.stage == ResultLock(false) || pc.stage == ResultHeld(false))
  }

  predicate Before(pc: Pc, h: Handler, sh: Shared) {
    && Outstanding(h, sh) == 0 && sh.waitSem == 0 && (InSlot(pc) ==> !h.HUnlock?)
    && (pc.In? && pc.call < |sh.calls| ==>
          var done := pc.stage == ReleaseApi(true);
          sh.calls[pc.call].sent == done && |sh.calls[pc.call].runs| == if done then 1 else 0)
  }

  predicate Underway(pc: Pc, h: Handler, sh: Shared)
    requires pc.In? && pc.call < |sh.calls|
  {
    var runs := |sh.calls[pc.call].runs|;
    && sh.calls[pc.call].sent && pc.stage != LeaveHeld(false)
    && if NotWoken(pc) && !sh.info.finish then
         Outstanding(h, sh) == 1 && !h.HPost? && !h.HUnlock? && sh.waitSem == 0 && runs == if h.HRan? then 1 else 0
       else
         && runs == 1 && Waits(sh.queue) == 0 && sh.info.finish
         && (h.HPost? || !Processing(h, sh))
         && (h.HPost? ==> NotWoken(pc))
         && sh.waitSem == if (NotWoken(pc) && !h.HPost?) || pc.stage.DrainHeld? then 1 else 0
  }

  predicate Once(pc: Pc, h: Handler, sh: Shared) {
    if !AfterSend(pc) then Before(pc, h, sh) else pc.call < |sh.calls| && Underway(pc, h, sh)
  }

  /** A call that has returned ran its callback once if it enqueued its message, and then it returned
      success, and never if not, and then it returned failure. */
  predicate OnceCall(c: Call) {
    c.caller.Of? && c.ret.Some? ==> |c.runs| == (if c.sent then 1 else 0) && (c.ret.value <==> c.sent)
  }

  /** Every call but those that had returned before. */
  predicate OnceSince(calls: seq<Call>, before: seq<Call>) {
    forall c :: 0 <= c < |calls| && !(c < |before| && before[c].ret.Some?) ==> OnceCall(calls[c])
  }

  predicate OnceInv(s: State, before: seq<Call>) {
    Once(Holder(s), s.h, s.sh) && OnceSince(s.sh.calls, before)
  }

  lemma HandlerOnce(pc: Pc, h: Handler, sh: Shared, a: HandlerAction)
    requires SlotOk(pc, h, sh) && NestOk(h, sh) && HandlerStep(sh, h, a).HMove? && Once(pc, h, sh)
    requires pc.In? ==> sh.calls[pc.call].caller.Of?
    ensures var m := HandlerStep(sh, h, a); Once(pc, m.h, m.sh)
  {
    if h.HIdle? && sh.queue != [] { WaitsTail(sh.queue); }
  }

  lemma HolderOnce(sh: Shared, i: nat, pc: Pc, h: Handler, a: Action)
    requires TaskOk(sh, i, pc) && TaskStep(sh, i, pc, a).Move? && HoldsApi(pc)
    requires SlotOk(pc, h, sh) && Once(pc, h, sh) && TaskStep(sh, i, pc, a).sh.stale == sh.stale
    ensures var m := TaskStep(sh, i, pc, a); Once(OwnerAfter(m), h, m.sh)
  {
    if AfterSend(pc) { HolderOnceLate(sh, i, pc, h, a); } else { HolderOnceEarly(sh, i, pc, h, a); }
  }

  lemma HolderOnceEarly(sh: Shared, i: nat, pc: Pc, h: Handler, a: Action)
    requires TaskOk(sh, i, pc) && TaskStep(sh, i, pc, a).Move? && HoldsApi(pc) && !AfterSend(pc)
    requires SlotOk(pc, h, sh) && Once(pc, h, sh)
    ensures var m := TaskStep(sh, i, pc, a); Once(OwnerAfter(m), h, m.sh)
  {
    if pc.stage.Send? { WaitsAppend(sh.queue, WaitMsg(pc.call)); }
  }

  lemma HolderOnceLate(sh: Shared, i: nat, pc: Pc, h: Handler, a: Action)
    requires TaskOk(sh, i, pc) && TaskStep(sh, i, pc, a).Move? && HoldsApi(pc) && AfterSend(pc)
    requires SlotOk(pc, h, sh) && Once(pc, h, sh) && TaskStep(sh, i, pc, a).sh.stale == sh.stale
    ensures var m := TaskStep(sh, i, pc, a); Once(OwnerAfter(m), h, m.sh)
  {}

  lemma HolderOnceCall(sh: Shared, i: nat, pc: Pc, h: Handler, a: Action)
    requires TaskOk(sh, i, pc) && TaskStep(sh, i, pc, a).Move? && HoldsApi(pc) && Once(pc, h, sh)
    ensures var m := TaskStep(sh, i, pc, a); OnceCall(m.sh.calls[pc.call])
  {
    TaskCalls(sh, i, pc, a);
  }

  lemma AsideKeepsOnce(owner: Pc, h: Handler, sh: Shared, sh': Shared)
    requires Once(owner, h, sh) && Aside(owner, sh, sh') && (owner.In? ==> owner.call < |sh.calls|)
    ensures Once(owner, h, sh')
  {
    WaitsAppend(sh.queue, OtherMsg);
  }

  lemma GainOnce(sh: Shared, i: nat, pc: Pc, h: Handler, a: Action)
    requires TaskOk(sh, i, pc) && TaskStep(sh, i, pc, a).Move? && Once(Idle, h, sh)
    requires !HoldsApi(pc) && HoldsApi(TaskStep(sh, i, pc, a).pc)
    ensures var m := TaskStep(sh, i, pc, a); Once(m.pc, h, m.sh)
  {}

  /** What a step of a task does to the account of its calls. */
  lemma TaskOnceCalls(s: State, i: nat, a: Action, t: State, before: seq<Call>)
    requires Inv(s) && OnceInv(s, before) && StepOfTask(s, i, a, t)
    ensures OnceSince(t.sh.calls, before)
  {
    var pc := s.pcs[i];
    assert TaskOk(s.sh, i, pc);
    TaskCalls(s.sh, i, pc, a);
    if HoldsApi(pc) { HolderOnceCall(s.sh, i, pc, s.h, a); }
  }

  lemma TaskOnce(s: State, i: nat, a: Action, t: State, before: seq<Call>)
    requires Inv(s) && OnceInv(s, before) && StepOfTask(s, i, a, t) && t.sh.stale == s.sh.stale
    ensures OnceInv(t, before)
  {
    var pc, owner := s.pcs[i], Holder(s);
    assert TaskOk(s.sh, i, pc);
    TaskLocks(s.sh, i, pc, a);
    TaskOnceCalls(s, i, a, t, before);
    if HoldsApi(pc) {
      HolderOnce(s.sh, i, pc, s.h, a);
    } else if HoldsApi(t.pcs[i]) {
      GainOnce(s.sh, i, pc, s.h, a);
    } else {
      if s.sh.apiLock.Some? { assert TaskOk(s.sh, s.sh.apiLock.value, owner); }
      BystanderAside(s.sh, i, pc, a, owner);
      AsideKeepsOnce(owner, s.h, s.sh, t.sh);
    }
  }

  lemma HandlerOnceInv(s: State, a: HandlerAction, t: State, before: seq<Call>)
    requires Inv(s) && OnceInv(s, before) && StepOfHandler(s, a, t)
    ensures OnceInv(t, before)
  {
    var pc := Holder(s);
    if pc.In? { assert TaskOk(s.sh, s.sh.apiLock.value, pc); }
    HandlerOnce(pc, s.h, s.sh, a);
    HandlerCalls(pc, s.h, s.sh, a);
    HandlerBy(s.sh, s.h, a);
  }

  /** The scheduler task changes nobody's call into another's, and adds calls of callbacks only. */
  lemma HandlerBy(sh: Shared, h: Handler, a: HandlerAction)
    requires HandlerStep(sh, h, a).HMove?
    ensures var calls := HandlerStep(sh, h, a).sh.calls;
      && |sh.calls| <= |calls|
      && (forall c :: 0 <= c < |sh.calls| ==> calls[c].caller == sh.calls[c].caller)
      && (forall c :: |sh.calls| <= c < |calls| ==> calls[c].caller.Reentrant?)
  {}

  lemma StaleGrows(s: State, t: State)
    requires Next(s, t)
    ensures s.sh.stale <= t.sh.stale
  {}

  lemma StepOnce(s: State, t: State, before: seq<Call>)
    requires Inv(s) && OnceInv(s, before) && Next(s, t) && t.sh.stale == s.sh.stale
    ensures OnceInv(t, before)
  {
    if exists i: nat, a :: StepOfTask(s, i, a, t) {
      var i: nat, a :| StepOfTask(s, i, a, t);
      TaskOnce(s, i, a, t, before);
    } else {
      var a :| StepOfHandler(s, a, t);
      HandlerOnceInv(s, a, t, before);
    }
  }

  lemma {:induction false} StaleAlong(run: seq<State>, j: nat, k: nat)
    requires IsRun(run) && j <= k < |run|
    ensures run[j].sh.stale <= run[k].sh.stale
    decreases k
  {
    if j == k {
    } else {
      StaleAlong(run, j, k - 1);
      assert StepAt(run, k - 1);
      StaleGrows(run[k - 1], run[k]);
    }
  }

  /** A clean state is where the account can begin. */
  lemma CleanBegins(s: State)
    requires Inv(s) && Clean(s)
    ensures OnceInv(s, s.sh.calls)
  {
    forall c | 0 <= c < |s.sh.calls| && s.sh.calls[c].ret.None? ensures OnceCall(s.sh.calls[c]) {}
  }

  lemma {:induction false} RunOnce(run: seq<State>, j: nat, k: nat)
    requires IsRun(run) && j <= k < |run| && Clean(run[j]) && run[k].sh.stale == run[j].sh.stale
    ensures OnceInv(run[k], run[j].sh.calls)
    decreases k
  {
    if j < k {
      StaleAlong(run, j, k - 1);
      StaleAlong(run, k - 1, k);
      RunOnce(run, j, k - 1);
      RunKeeps(run, k - 1);
      assert StepAt(run, k - 1);
      StepOnce(run[k - 1], run[k], run[j].sh.calls);
    } else {
      RunKeeps(run, j);
      CleanBegins(run[j]);
    }
  }

  /** From every reachable state with the API lock free and neither a message nor a token left over, and
      so from the start, as long as no call times out after enqueuing its message: at most one wait
      message is outstanding; whenever the API lock is free again, so is everything else, also after a
      wait that timed out although the task had finished; and each call that returns meanwhile ran its
      callback exactly once and returned success if it enqueued its message, and never ran it if not. */
  lemma ExactlyOnce(run: seq<State>, j: nat, k: nat)
    requires IsRun(run) && j <= k < |run| && Clean(run[j]) && run[k].sh.stale == run[j].sh.stale
    ensures var s := run[k];
      && Outstanding(s.h, s.sh) <= 1
      && (s.sh.apiLock.None? ==> Clean(s))
      && OnceSince(s.sh.calls, run[j].sh.calls)
  {
    RunOnce(run, j, k);
  }

  lemma StartsClean(run: seq<State>)
    requires IsRun(run)
    ensures Clean(run[0]) && run[0].sh.stale == 0 && run[0].sh.calls == []
  {}

  // ----- no deadlock -----

  datatype Actor = Task(task: nat) | Sched

  /** The actor can take its next step now, without any timeout. */
  predicate CanGo(s: State, x: Actor) {
    match x
    case Task(i) => i < |s.pcs| && TaskStep(s.sh, i, s.pcs[i], Go).Move?
    case Sched => HandlerStep(s.sh, s.h, SchedNext(s)).HMove?
  }

  /** The scheduler task goes on with the innermost callback, or with its message. */
  function SchedNext(s: State): HandlerAction {
    if s.sh.nested != [] then NestedReturn(0, 0) else HGo(0, 0)
  }

  /** Whom an actor that cannot go is waiting for. */
  function WaitsFor(s: State, x: Actor): set<Actor> {
    match x
    case Sched =>
      if s.h == HGot(true) && s.sh.taskLock.Some? then {OwnerActor(s.sh.taskLock.value)} else {}
    case Task(i) =>
      if i >= |s.pcs| || s.pcs[i].Idle? then {}
      else
        match s.pcs[i].stage
        case WantApi => if s.sh.apiLock.Some? then {Task(s.sh.apiLock.value)} else {}
        case Send => {Sched}
        case WaitSem => {Sched}
        case _ => if s.sh.taskLock.Some? then {OwnerActor(s.sh.taskLock.value)} else {}
  }

  function OwnerActor(o: Owner): Actor {
    if o.ByHandler? then Sched else Task(o.task)
  }

  /** A set of actors that wait only for each other. */
  predicate Closed(s: State, actors: set<Actor>) {
    forall x :: x in actors && !CanGo(s, x) ==> WaitsFor(s, x) <= actors
  }

  /** The owner of the API lock can go on, or the scheduler task it waits for can. */
  lemma OwnerCanGo(s: State, i: nat)
    requires Inv(s) && s.sh.apiLock == Some(i)
    ensures CanGo(s, Task(i)) || (WaitsFor(s, Task(i)) == {Sched} && CanGo(s, Sched))
  {
    assert TaskOk(s.sh, i, s.pcs[i]);
    assert Holder(s) == s.pcs[i];
  }

  /** No set of tasks deadlocks: in every reachable state, a set that contains a task in the middle of
      a call and is closed under waiting has a member that can take its next step without a timeout.
      Re-entrant calls are part of this: while any are in progress the innermost can return at once,
      whoever holds the locks. */
  lemma NoDeadlock(run: seq<State>, k: nat, actors: set<Actor>, i: nat)
    requires IsRun(run) && k < |run| && Closed(run[k], actors)
    requires i < |run[k].pcs| && run[k].pcs[i].In? && Task(i) in actors
    ensures exists x :: x in actors && CanGo(run[k], x)
    ensures run[k].sh.nested != [] ==> CanGo(run[k], Sched)
  {
    RunKeeps(run, k);
    var s := run[k];
    assert TaskOk(s.sh, i, s.pcs[i]);
    if !CanGo(s, Task(i)) {
      if s.sh.apiLock == Some(i) {
        OwnerCanGo(s, i);
        assert Sched in WaitsFor(s, Task(i));
      } else {
        var o := s.sh.apiLock.value;
        assert Task(o) in WaitsFor(s, Task(i));
        OwnerCanGo(s, o);
        if !CanGo(s, Task(o)) { assert Sched in WaitsFor(s, Task(o)); }
      }
    }
  }
}
