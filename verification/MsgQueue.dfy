/** The message queue of utils_msg_queue.c as a system of interleaved steps: any number of tasks push,
    pop, suspend and resume; one lock guards the queue and the push switch; one semaphore per
    direction announces changes. Taking and releasing the lock, reading a semaphore count, posting
    and waiting are steps of their own. */
module MsgQueue {
  import opened Common
  import opened UtilsQueue

  datatype PushArg = PushArg(value: Block, mem: bool, timeout: nat)
  datatype PopArg = PopArg(size: Option<nat>, timeout: nat)

  /** The stages of a push; the stages ending in Held own the lock. */
  datatype PushStage =
    | SwitchLock | SwitchHeld           // look at the push switch
    | RoomLock | RoomHeld | RoomWait    // look for room, wait on recvSem when there is none
    | PutLock | PutHeld                 // put the value
    | SentHeld | SendPostHeld           // read the count of sendSem, post it when it was zero
    | PushEndHeld

  datatype PopStage =
    | DataLock | DataHeld | DataWait    // look for data, wait on sendSem when there is none
    | TakeLock | TakeHeld
    | TakenHeld | RecvPostHeld
    | PopEndHeld

  datatype Pc =
    | Idle
    | Push(push: PushStage, pushArg: PushArg)
    | Pop(pop: PopStage, popArg: PopArg)
    | Switch(held: bool, on: bool)      // Suspend (off) and Resume (on)

  /** What the tasks share, and as history the values that went in and came out, in order. */
  datatype Shared = Shared(
    lock: Option<nat>,
    capacity: nat,
    list: seq<Block>,
    pushOn: bool,
    sendSem: nat,
    recvSem: nat,
    pushed: seq<Block>,
    popped: seq<Block>)

  datatype State = State(pcs: seq<Pc>, sh: Shared)

  /** What happens in a step of a task: it begins a call, takes its next step, runs into the timeout
      of the lock or semaphore it waits for, or finds no memory. */
  datatype Action =
    | CallPush(pushArg: PushArg)
    | CallPop(popArg: PopArg)
    | CallSwitch(on: bool)
    | Go
    | GiveUp
    | NoMemory

  predicate PushHolds(stage: PushStage) {
    || stage.SwitchHeld? || stage.RoomHeld? || stage.PutHeld?
    || stage.SentHeld? || stage.SendPostHeld? || stage.PushEndHeld?
  }

  predicate PopHolds(stage: PopStage) {
    stage.DataHeld? || stage.TakeHeld? || stage.TakenHeld? || stage.RecvPostHeld? || stage.PopEndHeld?
  }

  predicate Holds(pc: Pc) {
    match pc
    case Idle => false
    case Push(stage, _) => PushHolds(stage)
    case Pop(stage, _) => PopHolds(stage)
    case Switch(held, _) => held
  }

  /** Outcome of a step: the shared state and where the task is afterwards. */
  datatype Move = Stuck | Move(sh: Shared, pc: Pc)

  function Acquire(sh: Shared, i: nat, pc: Pc): Move {
    if sh.lock.None? then Move(sh.(lock := Some(i)), pc) else Stuck
  }

  function Release(sh: Shared, pc: Pc): Move {
    Move(sh.(lock := None), pc)
  }

  /** Waiting for the lock: it is taken, or the wait times out and the call fails. */
  function LockStep(sh: Shared, i: nat, pc: Pc, a: Action): Move {
    if a.Go? then Acquire(sh, i, pc) else if a.GiveUp? then Move(sh, Idle) else Stuck
  }

  function PushStep(sh: Shared, i: nat, stage: PushStage, arg: PushArg, a: Action): Move {
    match stage
    case SwitchLock =>
      // a lock timeout is ignored here: the switch is then read without the lock
      if a.Go? then Acquire(sh, i, Push(SwitchHeld, arg))
      else if a.GiveUp? then Move(sh, if sh.pushOn then Push(RoomLock, arg) else Idle)
      else Stuck
    case SwitchHeld =>
      if a.Go? then Release(sh, if sh.pushOn then Push(RoomLock, arg) else Idle) else Stuck
    case RoomLock => LockStep(sh, i, Push(RoomHeld, arg), a)
    case RoomHeld =>
      if !a.Go? then Stuck
      else if |sh.list| < sh.capacity then Release(sh, Push(PutLock, arg))
      else Release(sh, if arg.timeout == 0 then Idle else Push(RoomWait, arg))
    case RoomWait =>
      if a.Go? && sh.recvSem > 0 then Move(sh.(recvSem := sh.recvSem - 1), Push(PutLock, arg))
      else if a.GiveUp? then Move(sh, Idle)
      else Stuck
    case PutLock => LockStep(sh, i, Push(PutHeld, arg), a)
    case PutHeld =>
      if !a.Go? && !a.NoMemory? then Stuck
      else
        var status := if arg.mem then PushMemStatus(sh.list, sh.capacity, Some(arg.value), a.Go?)
                      else PushStatus(sh.list, sh.capacity, Some(arg.value), a.Go?);
        if status.Success?
        then Move(sh.(list := sh.list + [arg.value], pushed := sh.pushed + [arg.value]), Push(SentHeld, arg))
        else Release(sh, Idle)
    case SentHeld =>
      if a.Go? then Move(sh, Push(if sh.sendSem == 0 then SendPostHeld else PushEndHeld, arg)) else Stuck
    case SendPostHeld =>
      if a.Go? then Move(sh.(sendSem := sh.sendSem + 1), Push(PushEndHeld, arg)) else Stuck
    case PushEndHeld =>
      if a.Go? then Release(sh, Idle) else Stuck
  }

  function PopStep(sh: Shared, i: nat, stage: PopStage, arg: PopArg, a: Action): Move {
    match stage
    case DataLock => LockStep(sh, i, Pop(DataHeld, arg), a)
    case DataHeld =>
      if !a.Go? then Stuck
      else if sh.list != [] then Release(sh, Pop(TakeLock, arg))
      else Release(sh, if arg.timeout == 0 then Idle else Pop(DataWait, arg))
    case DataWait =>
      if a.Go? && sh.sendSem > 0 then Move(sh.(sendSem := sh.sendSem - 1), Pop(TakeLock, arg))
      else if a.GiveUp? then Move(sh, Idle)
      else Stuck
    case TakeLock => LockStep(sh, i, Pop(TakeHeld, arg), a)
    case TakeHeld =>
      if !a.Go? then Stuck
      else if PopStatus(sh.list, arg.size).Success?
      then Move(sh.(list := sh.list[1..], popped := sh.popped + [sh.list[0]]), Pop(TakenHeld, arg))
      else Release(sh, Idle)
    case TakenHeld =>
      if a.Go? then Move(sh, Pop(if sh.recvSem == 0 then RecvPostHeld else PopEndHeld, arg)) else Stuck
    case RecvPostHeld =>
      if a.Go? then Move(sh.(recvSem := sh.recvSem + 1), Pop(PopEndHeld, arg)) else Stuck
    case PopEndHeld =>
      if a.Go? then Release(sh, Idle) else Stuck
  }

  function SwitchStep(sh: Shared, i: nat, held: bool, on: bool, a: Action): Move {
    if !held then LockStep(sh, i, Switch(true, on), a)
    else if a.Go? then Release(sh.(pushOn := on), Idle)
    else Stuck
  }

  /** A call with a null, empty or zero-sized argument returns at once. */
  function CallStep(sh: Shared, a: Action): Move {
    match a
    case CallPush(arg) => Move(sh, if arg.value == [] then Idle else Push(SwitchLock, arg))
    case CallPop(arg) => Move(sh, if arg.size == Some(0) then Idle else Pop(DataLock, arg))
    case CallSwitch(on) => Move(sh, Switch(false, on))
    case _ => Stuck
  }

  function TaskStep(sh: Shared, i: nat, pc: Pc, a: Action): Move {
    match pc
    case Idle => CallStep(sh, a)
    case Push(stage, arg) => PushStep(sh, i, stage, arg, a)
    case Pop(stage, arg) => PopStep(sh, i, stage, arg, a)
    case Switch(held, on) => SwitchStep(sh, i, held, on, a)
  }

  ghost predicate Step(s: State, i: nat, a: Action, t: State) {
    && i < |s.pcs| == |t.pcs|
    && t.pcs == s.pcs[i := t.pcs[i]]
    && TaskStep(s.sh, i, s.pcs[i], a) == Move(t.sh, t.pcs[i])
  }

  predicate Init(s: State) {
    && (forall i :: 0 <= i < |s.pcs| ==> s.pcs[i].Idle?)
    && s.sh.capacity > 0
    && s.sh == Shared(None, s.sh.capacity, [], true, 0, 0, [], [])
  }

  ghost predicate Next(s: State, t: State) {
    exists i: nat, a :: Step(s, i, a, t)
  }

  ghost predicate StepAt(run: seq<State>, k: nat) {
    k + 1 < |run| && Next(run[k], run[k + 1])
  }

  ghost predicate IsTrace(run: seq<State>) {
    run != [] && forall k: nat :: k < |run| - 1 ==> StepAt(run, k)
  }

  ghost predicate IsRun(run: seq<State>) {
    IsTrace(run) && Init(run[0])
  }

  // ----- what every step keeps -----

  predicate AtSendPost(pc: Pc) { pc.Push? && pc.push.SendPostHeld? }
  predicate AtRecvPost(pc: Pc) { pc.Pop? && pc.pop.RecvPostHeld? }
  predicate AtSent(pc: Pc) { pc.Push? && (pc.push.SentHeld? || pc.push.SendPostHeld?) }
  predicate AtTaken(pc: Pc) { pc.Pop? && (pc.pop.TakenHeld? || pc.pop.RecvPostHeld?) }

  /** A task holds the lock exactly in its critical sections, and posts only on a zero count. */
  predicate TaskOk(sh: Shared, i: nat, pc: Pc) {
    && (Holds(pc) <==> sh.lock == Some(i))
    && (AtSendPost(pc) ==> sh.sendSem == 0)
    && (AtRecvPost(pc) ==> sh.recvSem == 0)
  }

  /** The queue is within capacity, what went in is what came out followed by what is queued,
      and no semaphore exceeds one. */
  predicate SharedOk(sh: Shared) {
    && |sh.list| <= sh.capacity
    && sh.pushed == sh.popped + sh.list
    && sh.sendSem <= 1 && sh.recvSem <= 1
  }

  predicate Inv(s: State) {
    && SharedOk(s.sh)
    && (s.sh.lock.Some? ==> s.sh.lock.value < |s.pcs|)
    && forall i :: 0 <= i < |s.pcs| ==> TaskOk(s.sh, i, s.pcs[i])
  }

  /** What a step of task i may do to the state the others see: take or give up the lock for itself,
      raise a semaphore only under the lock, and leave the capacity alone. */
  predicate Respects(sh: Shared, i: nat, sh': Shared) {
    && (|| sh'.lock == sh.lock
        || (sh.lock.None? && sh'.lock == Some(i))
        || (sh.lock == Some(i) && sh'.lock.None?))
    && (sh'.sendSem <= sh.sendSem || sh.lock == Some(i))
    && (sh'.recvSem <= sh.recvSem || sh.lock == Some(i))
    && sh'.capacity == sh.capacity
  }

  lemma PushKeeps(sh: Shared, i: nat, pc: Pc, a: Action)
    requires pc.Push? && SharedOk(sh) && TaskOk(sh, i, pc) && TaskStep(sh, i, pc, a).Move?
    ensures var m := TaskStep(sh, i, pc, a);
      SharedOk(m.sh) && TaskOk(m.sh, i, m.pc) && Respects(sh, i, m.sh)
  {
    var v := pc.pushArg.value;
    assert sh.popped + (sh.list + [v]) == sh.popped + sh.list + [v];
  }

  lemma PopKeeps(sh: Shared, i: nat, pc: Pc, a: Action)
    requires pc.Pop? && SharedOk(sh) && TaskOk(sh, i, pc) && TaskStep(sh, i, pc, a).Move?
    ensures var m := TaskStep(sh, i, pc, a);
      SharedOk(m.sh) && TaskOk(m.sh, i, m.pc) && Respects(sh, i, m.sh)
  {
    if pc.pop.TakeHeld? && sh.list != [] {
      assert sh.popped + sh.list == sh.popped + [sh.list[0]] + sh.list[1..];
    }
  }

  lemma TaskKeeps(sh: Shared, i: nat, pc: Pc, a: Action)
    requires SharedOk(sh) && TaskOk(sh, i, pc) && TaskStep(sh, i, pc, a).Move?
    ensures var m := TaskStep(sh, i, pc, a);
      SharedOk(m.sh) && TaskOk(m.sh, i, m.pc) && Respects(sh, i, m.sh)
  {
    if pc.Push? { PushKeeps(sh, i, pc, a); }
    else if pc.Pop? { PopKeeps(sh, i, pc, a); }
  }

  lemma OthersKeep(sh: Shared, i: nat, sh': Shared, j: nat, pc: Pc)
    requires TaskOk(sh, j, pc) && j != i && Respects(sh, i, sh')
    ensures TaskOk(sh', j, pc)
  {}

  lemma StepKeeps(s: State, i: nat, a: Action, t: State)
    requires Inv(s) && Step(s, i, a, t)
    ensures Inv(t) && Respects(s.sh, i, t.sh)
  {
    TaskKeeps(s.sh, i, s.pcs[i], a);
    forall j | 0 <= j < |t.pcs| ensures TaskOk(t.sh, j, t.pcs[j]) {
      if j != i {
        OthersKeep(s.sh, i, t.sh, j, s.pcs[j]);
      }
    }
  }

  lemma {:induction false} RunKeeps(run: seq<State>, k: nat)
    requires IsRun(run) && k < |run|
    ensures Inv(run[k]) && |run[k].pcs| == |run[0].pcs| && run[k].sh.capacity == run[0].sh.capacity
  {
    if k == 0 {
    } else {
      RunKeeps(run, k - 1);
      assert StepAt(run, k - 1);
      var i: nat, a :| Step(run[k - 1], i, a, run[k]);
      StepKeeps(run[k - 1], i, a, run[k]);
    }
  }

  /** In every run of any number of tasks the values pushed are the values popped followed by the
      queue in order, the queue never exceeds its capacity, and neither semaphore exceeds one. */
  lemma Conservation(run: seq<State>, k: nat)
    requires IsRun(run) && k < |run|
    ensures var s := run[k].sh;
      && s.pushed == s.popped + s.list
      && |s.list| <= run[0].sh.capacity
      && s.sendSem <= 1 && s.recvSem <= 1
  {
    RunKeeps(run, k);
  }

  // ----- no lost wake-up -----

  ghost predicate SoleConsumer(run: seq<State>, c: nat) {
    forall k, i :: 0 <= k < |run| && 0 <= i < |run[k].pcs| && run[k].pcs[i].Pop? ==> i == c
  }

  ghost predicate SoleProducer(run: seq<State>, p: nat) {
    forall k, i :: 0 <= k < |run| && 0 <= i < |run[k].pcs| && run[k].pcs[i].Push? ==> i == p
  }

  predicate WaitsForData(s: State, c: nat) {
    c < |s.pcs| && s.pcs[c].Pop? && s.pcs[c].pop.DataWait?
  }

  predicate WaitsForRoom(s: State, p: nat) {
    p < |s.pcs| && s.pcs[p].Push? && s.pcs[p].push.RoomWait?
  }

  predicate DataAnnounced(s: State, c: nat) {
    WaitsForData(s, c) && s.sh.list != [] ==>
      s.sh.sendSem == 1 || (s.sh.lock.Some? && s.sh.lock.value < |s.pcs| && AtSent(s.pcs[s.sh.lock.value]))
  }

  predicate RoomAnnounced(s: State, p: nat) {
    WaitsForRoom(s, p) && |s.sh.list| < s.sh.capacity ==>
      s.sh.recvSem == 1 || (s.sh.lock.Some? && s.sh.lock.value < |s.pcs| && AtTaken(s.pcs[s.sh.lock.value]))
  }

  /** What a step does to the announcements: a value that goes in leaves its task about to look at
      sendSem, a task leaves that point only with sendSem raised, and only a waiting consumer lowers it. */
  lemma SendEffect(sh: Shared, i: nat, pc: Pc, a: Action)
    requires SharedOk(sh) && TaskOk(sh, i, pc) && TaskStep(sh, i, pc, a).Move?
    ensures var m := TaskStep(sh, i, pc, a);
      && (sh.list == [] && m.sh.list != [] ==> AtSent(m.pc))
      && (AtSent(pc) ==> AtSent(m.pc) || m.sh.sendSem == 1)
      && (m.sh.sendSem < sh.sendSem ==> pc.Pop? && pc.pop.DataWait? && !(m.pc.Pop? && m.pc.pop.DataWait?))
      && (m.pc.Pop? && m.pc.pop.DataWait? ==> m.sh.list == [])
  {}

  lemma RecvEffect(sh: Shared, i: nat, pc: Pc, a: Action)
    requires SharedOk(sh) && TaskOk(sh, i, pc) && TaskStep(sh, i, pc, a).Move?
    ensures var m := TaskStep(sh, i, pc, a);
      && (|sh.list| >= sh.capacity && |m.sh.list| < sh.capacity ==> AtTaken(m.pc))
      && (AtTaken(pc) ==> AtTaken(m.pc) || m.sh.recvSem == 1)
      && (m.sh.recvSem < sh.recvSem ==> pc.Push? && pc.push.RoomWait? && !(m.pc.Push? && m.pc.push.RoomWait?))
      && (m.pc.Push? && m.pc.push.RoomWait? ==> |m.sh.list| >= m.sh.capacity)
  {}

  lemma DataStep(s: State, i: nat, a: Action, t: State, c: nat)
    requires Inv(s) && Step(s, i, a, t) && DataAnnounced(s, c)
    requires forall j :: 0 <= j < |s.pcs| && s.pcs[j].Pop? ==> j == c
    ensures DataAnnounced(t, c)
  {
    StepKeeps(s, i, a, t);
    SendEffect(s.sh, i, s.pcs[i], a);
  }

  lemma RoomStep(s: State, i: nat, a: Action, t: State, p: nat)
    requires Inv(s) && Step(s, i, a, t) && RoomAnnounced(s, p)
    requires forall j :: 0 <= j < |s.pcs| && s.pcs[j].Push? ==> j == p
    ensures RoomAnnounced(t, p)
  {
    StepKeeps(s, i, a, t);
    RecvEffect(s.sh, i, s.pcs[i], a);
  }

  lemma {:induction false} DataAlongRun(run: seq<State>, k: nat, c: nat)
    requires IsRun(run) && k < |run| && SoleConsumer(run, c)
    ensures DataAnnounced(run[k], c)
  {
    if k == 0 {
    } else {
      DataAlongRun(run, k - 1, c);
      RunKeeps(run, k - 1);
      assert StepAt(run, k - 1);
      var i: nat, a :| Step(run[k - 1], i, a, run[k]);
      DataStep(run[k - 1], i, a, run[k], c);
    }
  }

  lemma {:induction false} RoomAlongRun(run: seq<State>, k: nat, p: nat)
    requires IsRun(run) && k < |run| && SoleProducer(run, p)
    ensures RoomAnnounced(run[k], p)
  {
    if k == 0 {
    } else {
      RoomAlongRun(run, k - 1, p);
      RunKeeps(run, k - 1);
      assert StepAt(run, k - 1);
      var i: nat, a :| Step(run[k - 1], i, a, run[k]);
      RoomStep(run[k - 1], i, a, run[k], p);
    }
  }

  /** With one consumer and any number of producers: whenever the lock is free and the consumer is
      still waiting although the queue is not empty, its token is there and it can go on. */
  lemma ConsumerWakes(run: seq<State>, k: nat, c: nat)
    requires IsRun(run) && k < |run| && SoleConsumer(run, c)
    requires run[k].sh.lock.None? && WaitsForData(run[k], c) && run[k].sh.list != []
    ensures run[k].sh.sendSem == 1 && TaskStep(run[k].sh, c, run[k].pcs[c], Go).Move?
  {
    DataAlongRun(run, k, c);
    RunKeeps(run, k);
  }

  /** With one producer and any number of consumers, the same for a producer waiting for room. */
  lemma ProducerWakes(run: seq<State>, k: nat, p: nat)
    requires IsRun(run) && k < |run| && SoleProducer(run, p)
    requires run[k].sh.lock.None? && WaitsForRoom(run[k], p) && |run[k].sh.list| < run[k].sh.capacity
    ensures run[k].sh.recvSem == 1 && TaskStep(run[k].sh, p, run[k].pcs[p], Go).Move?
  {
    RoomAlongRun(run, k, p);
    RunKeeps(run, k);
  }

  // ----- suspension -----

  /** A push that has seen the switch on and has not put its value yet. */
  predicate MayPut(pc: Pc) {
    pc.Push? && (pc.push.RoomLock? || pc.push.RoomHeld? || pc.push.RoomWait? || pc.push.PutLock? || pc.push.PutHeld?)
  }

  /** Any other task puts nothing, and does not come to this point while the switch is off. */
  lemma SwitchEffect(sh: Shared, i: nat, pc: Pc, a: Action)
    requires !MayPut(pc) && TaskStep(sh, i, pc, a).Move?
    ensures var m := TaskStep(sh, i, pc, a);
      && m.sh.pushed == sh.pushed
      && (m.sh.list == sh.list || (sh.list != [] && m.sh.list == sh.list[1..]))
      && (!sh.pushOn ==> !MayPut(m.pc))
  {}

  lemma {:induction false} SuspendedTask(run: seq<State>, i: nat, from: nat, upto: nat)
    requires IsTrace(run) && from <= upto < |run|
    requires forall k :: from <= k <= upto ==> i < |run[k].pcs| && !run[k].sh.pushOn
    requires !MayPut(run[from].pcs[i])
    ensures forall k :: from <= k <= upto ==> !MayPut(run[k].pcs[i])
    decreases upto
  {
    if from == upto {
    } else {
      SuspendedTask(run, i, from, upto - 1);
      assert StepAt(run, upto - 1);
      var j: nat, a :| Step(run[upto - 1], j, a, run[upto]);
      if j == i { SwitchEffect(run[upto - 1].sh, i, run[upto - 1].pcs[i], a); }
    }
  }

  /** A push that had not passed the switch, or had put its value, when the suspension began, and one that
      starts afterwards, puts nothing as long as the suspension lasts. */
  lemma LatePushPutsNothing(run: seq<State>, i: nat, from: nat, upto: nat, k: nat, a: Action)
    requires IsTrace(run) && from <= k < upto < |run|
    requires forall k :: from <= k <= upto ==> i < |run[k].pcs| && !run[k].sh.pushOn
    requires !MayPut(run[from].pcs[i])
    requires Step(run[k], i, a, run[k + 1])
    ensures run[k + 1].sh.pushed == run[k].sh.pushed && !MayPut(run[k + 1].pcs[i])
  {
    SuspendedTask(run, i, from, upto);
    SwitchEffect(run[k].sh, i, run[k].pcs[i], a);
  }

  /** If no task was between the switch and its put when the suspension began, the queue can only drain. */
  lemma {:induction false} SuspendedQueueOnlyDrains(run: seq<State>, from: nat, upto: nat)
    requires IsRun(run) && from <= upto < |run|
    requires forall k :: from <= k <= upto ==> !run[k].sh.pushOn
    requires forall i :: 0 <= i < |run[from].pcs| ==> !MayPut(run[from].pcs[i])
    ensures run[upto].sh.pushed == run[from].sh.pushed
    ensures exists n :: 0 <= n <= |run[from].sh.list| && run[upto].sh.list == run[from].sh.list[n..]
    decreases upto
  {
    if from == upto {
      assert run[upto].sh.list == run[from].sh.list[0..];
    } else {
      var s, t := run[upto - 1], run[upto];
      SuspendedQueueOnlyDrains(run, from, upto - 1);
      assert StepAt(run, upto - 1);
      var j: nat, a :| Step(s, j, a, t);
      forall k | from <= k <= upto - 1 ensures j < |run[k].pcs| {
        RunKeeps(run, k);
        RunKeeps(run, upto - 1);
      }
      SuspendedTask(run, j, from, upto - 1);
      SwitchEffect(s.sh, j, s.pcs[j], a);
      var n :| 0 <= n <= |run[from].sh.list| && s.sh.list == run[from].sh.list[n..];
      if t.sh.list != s.sh.list {
        assert t.sh.list == run[from].sh.list[n + 1..];
      }
    }
  }
}
