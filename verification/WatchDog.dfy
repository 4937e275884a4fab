/** The watchdog of dfx_watch_dog.c: a list of nodes scanned at every tick until one of them fires. */
module WatchDog {
  import opened Common

  const INTERVAL := 2000

  /** One node: the task it watches, whether it was ever fed, its timeout and the time run up so far. */
  datatype Node = Node(task: nat, flag: bool, timeout: U32, running: U32)

  /** A node that counts at all. */
  predicate Counts(n: Node) {
    n.timeout != 0 && n.flag
  }

  predicate Due(n: Node) {
    Counts(n) && n.timeout <= n.running
  }

  /** One tick of a node that is not due. */
  function Advanced(n: Node): Node {
    if Counts(n) then n.(running := ToU32(n.running + INTERVAL)) else n
  }

  // ----- the operations -----

  datatype Op = Tick | Feed(task: nat) | Add(task: nat, timeout: U32) | Delete(task: nat)

  /** The first node from place i on that is due, or the end of the list. */
  function FirstDue(nodes: seq<Node>, i: nat): (r: nat)
    requires i <= |nodes|
    ensures i <= r <= |nodes| && (r < |nodes| ==> Due(nodes[r])) && forall k :: i <= k < r ==> !Due(nodes[k])
    decreases |nodes| - i
  {
    if i == |nodes| || Due(nodes[i]) then i else FirstDue(nodes, i + 1)
  }

  /** What a tick makes of the node at place k when the first node due is at place f: those before it
      advance, it starts over and fires, and those after it are not looked at. */
  function Ticked(n: Node, k: nat, f: nat): Node {
    if k < f then Advanced(n) else if k == f then n.(running := 0) else n
  }

  function TickAll(nodes: seq<Node>): (r: seq<Node>)
    ensures |r| == |nodes|
  {
    var f := FirstDue(nodes, 0);
    seq(|nodes|, k requires 0 <= k < |nodes| => Ticked(nodes[k], k, f))
  }

  /** The place of the node of a task, or the end of the list. */
  function Find(nodes: seq<Node>, task: nat, i: nat): (r: nat)
    requires i <= |nodes|
    ensures i <= r <= |nodes| && (r < |nodes| ==> nodes[r].task == task)
    ensures forall k :: i <= k < r ==> nodes[k].task != task
    decreases |nodes| - i
  {
    if i == |nodes| || nodes[i].task == task then i else Find(nodes, task, i + 1)
  }

  function Step(nodes: seq<Node>, op: Op): seq<Node> {
    match op
    case Tick => TickAll(nodes)
    case Feed(task) =>
      var i := Find(nodes, task, 0);
      if i < |nodes| then nodes[i := nodes[i].(flag := true, running := 0)] else nodes
    case Add(task, timeout) => if timeout == 0 then nodes else nodes + [Node(task, false, timeout, 0)]
    case Delete(task) =>
      var i := Find(nodes, task, 0);
      if i < |nodes| then nodes[..i] + nodes[i + 1..] else nodes
  }

  // ----- the node of one task -----

  /** One node for each task. */
  ghost predicate Distinct(nodes: seq<Node>) {
    forall j, k :: 0 <= j < k < |nodes| ==> nodes[j].task != nodes[k].task
  }

  predicate Watched(nodes: seq<Node>, task: nat) {
    Find(nodes, task, 0) < |nodes|
  }

  function NodeOf(nodes: seq<Node>, task: nat): Node
    requires Watched(nodes, task)
  {
    nodes[Find(nodes, task, 0)]
  }

  /** A node listed before that of the task fires at this tick. */
  predicate Preempted(nodes: seq<Node>, task: nat) {
    FirstDue(nodes, 0) < Find(nodes, task, 0)
  }

  predicate Fires(nodes: seq<Node>, task: nat) {
    Watched(nodes, task) && FirstDue(nodes, 0) == Find(nodes, task, 0)
  }

  predicate Advances(nodes: seq<Node>, task: nat) {
    Watched(nodes, task) && !Preempted(nodes, task) && !Fires(nodes, task) && Counts(NodeOf(nodes, task))
  }

  /** A task that adds a watchdog has none yet. */
  predicate Legal(nodes: seq<Node>, op: Op) {
    op.Add? ==> !Watched(nodes, op.task)
  }

  lemma FindSame(nodes: seq<Node>, other: seq<Node>, task: nat, i: nat)
    requires i <= |nodes| == |other| && forall k :: 0 <= k < |nodes| ==> nodes[k].task == other[k].task
    ensures Find(nodes, task, i) == Find(other, task, i)
    decreases |nodes| - i
  {
    if i < |nodes| && nodes[i].task != task { FindSame(nodes, other, task, i + 1); }
  }

  lemma TickNode(nodes: seq<Node>, task: nat)
    requires Watched(nodes, task)
    ensures Watched(TickAll(nodes), task)
    ensures var n := NodeOf(nodes, task);
      NodeOf(TickAll(nodes), task) ==
        if Preempted(nodes, task) then n else if Fires(nodes, task) then n.(running := 0) else Advanced(n)
  {
    FindSame(nodes, TickAll(nodes), task, 0);
  }

  lemma FeedNode(nodes: seq<Node>, fed: nat, task: nat)
    requires Watched(nodes, task)
    ensures var t := Step(nodes, Feed(fed));
      && Watched(t, task)
      && NodeOf(t, task)
         == if fed == task then NodeOf(nodes, task).(flag := true, running := 0) else NodeOf(nodes, task)
  {
    FindSame(nodes, Step(nodes, Feed(fed)), task, 0);
  }

  lemma {:induction false} FindAppend(nodes: seq<Node>, n: Node, task: nat, i: nat)
    requires i <= |nodes|
    ensures Find(nodes + [n], task, i) ==
      if Find(nodes, task, i) < |nodes| || n.task == task then Find(nodes, task, i) else |nodes| + 1
    decreases |nodes| - i
  {
    if i < |nodes| && nodes[i].task != task { FindAppend(nodes, n, task, i + 1); }
  }

  /** A task that adds a watchdog with a timeout and has none yet is watched from then on, after the nodes
      already there, and does not count before it is first fed; without a timeout nothing is added. */
  lemma AddWatches(nodes: seq<Node>, task: nat, timeout: U32)
    requires !Watched(nodes, task)
    ensures var t := Step(nodes, Add(task, timeout));
      && (Watched(t, task) <==> timeout != 0) && nodes <= t && |t| <= |nodes| + 1
      && (timeout != 0 ==> NodeOf(t, task) == Node(task, false, timeout, 0) && Find(t, task, 0) == |nodes|)
      && (timeout == 0 ==> t == nodes)
  {
    FindAppend(nodes, Node(task, false, timeout, 0), task, 0);
  }

  lemma FindIs(nodes: seq<Node>, task: nat, i: nat)
    requires Distinct(nodes) && i < |nodes| && nodes[i].task == task
    ensures Find(nodes, task, 0) == i
  {
    var f := Find(nodes, task, 0);
    assert f <= i;
  }

  lemma DeleteNode(nodes: seq<Node>, deleted: nat, task: nat)
    requires Distinct(nodes) && Watched(nodes, task) && deleted != task
    ensures var t := Step(nodes, Delete(deleted));
      Distinct(t) && Watched(t, task) && NodeOf(t, task) == NodeOf(nodes, task)
  {
    var t, i, j := Step(nodes, Delete(deleted)), Find(nodes, deleted, 0), Find(nodes, task, 0);
    if i < |nodes| {
      var place := if j < i then j else j - 1;
      assert t[place] == nodes[j];
      FindIs(t, task, place);
    }
  }

  lemma StepDistinct(nodes: seq<Node>, op: Op)
    requires Distinct(nodes) && Legal(nodes, op)
    ensures Distinct(Step(nodes, op))
  {
    match op
    case Tick => forall k | 0 <= k < |nodes| ensures TickAll(nodes)[k].task == nodes[k].task {}
    case Add(task, _) => assert forall k :: 0 <= k < |nodes| ==> nodes[k].task != task;
    case _ =>
  }

  // ----- whole runs -----

  function StepAll(ops: seq<Op>): seq<Node> {
    if ops == [] then [] else Step(StepAll(ops[..|ops| - 1]), ops[|ops| - 1])
  }

  ghost predicate AllLegal(ops: seq<Op>) {
    ops == [] || (AllLegal(ops[..|ops| - 1]) && Legal(StepAll(ops[..|ops| - 1]), ops[|ops| - 1]))
  }

  /** An operation that starts the count of a task afresh. */
  predicate Restarts(nodes: seq<Node>, op: Op, task: nat) {
    match op
    case Tick => Fires(nodes, task)
    case _ => op.task == task
  }

  /** The advancing ticks of a task since it was last fed or fired. */
  function AdvancesSince(ops: seq<Op>, task: nat): nat {
    if ops == [] then 0
    else
      var front, last := ops[..|ops| - 1], ops[|ops| - 1];
      if Restarts(StepAll(front), last, task) then 0
      else AdvancesSince(front, task) + if last.Tick? && Advances(StepAll(front), task) then 1 else 0
  }

  /** All ticks since then. */
  function Ticks(ops: seq<Op>, task: nat): nat {
    if ops == [] then 0
    else
      var front, last := ops[..|ops| - 1], ops[|ops| - 1];
      if Restarts(StepAll(front), last, task) then 0 else Ticks(front, task) + if last.Tick? then 1 else 0
  }

  /** Those of them at which a node listed before fired. */
  function Preemptions(ops: seq<Op>, task: nat): nat {
    if ops == [] then 0
    else
      var front, last := ops[..|ops| - 1], ops[|ops| - 1];
      if Restarts(StepAll(front), last, task) then 0
      else Preemptions(front, task) + if last.Tick? && Preempted(StepAll(front), task) then 1 else 0
  }

  /** The ticks since the task was last fed, whether or not it fired since. */
  function TicksUnfed(ops: seq<Op>, task: nat): nat {
    if ops == [] then 0
    else
      var front, last := ops[..|ops| - 1], ops[|ops| - 1];
      if last.Tick? then TicksUnfed(front, task) + 1 else if last.task == task then 0 else TicksUnfed(front, task)
  }

  function Ceil(timeout: U32): nat {
    (timeout + INTERVAL - 1) / INTERVAL
  }

  /** The largest timeout that the counter can reach without wrapping around. */
  const MAX_TIMEOUT := 4294966000

  lemma CeilIs(timeout: U32, a: nat)
    ensures INTERVAL * a < timeout <==> a < Ceil(timeout)
    ensures timeout <= MAX_TIMEOUT ==> INTERVAL * Ceil(timeout) < TWO32
  {}

  lemma {:induction false} RunDistinct(ops: seq<Op>)
    requires AllLegal(ops)
    ensures Distinct(StepAll(ops))
  {
    if ops == [] {
    } else {
      RunDistinct(ops[..|ops| - 1]);
      StepDistinct(StepAll(ops[..|ops| - 1]), ops[|ops| - 1]);
    }
  }

  /** What holds of the node of a task whose timeout is within reach: the time run up is one interval for
      each advancing tick, and there are never more of these than it takes to reach the timeout. */
  ghost predicate Counted(n: Node, advances: nat) {
    && n.timeout != 0 && n.running == INTERVAL * advances && advances <= Ceil(n.timeout)
    && (!n.flag ==> advances == 0)
  }

  lemma CountedAdvance(n: Node, a: nat)
    requires Counted(n, a) && n.timeout <= MAX_TIMEOUT
    ensures Due(n) <==> n.flag && a == Ceil(n.timeout)
    ensures !Due(n) ==> Counted(Advanced(n), if Counts(n) then a + 1 else a)
    ensures Counted(n.(running := 0), 0)
  {
    CeilIs(n.timeout, a);
    CeilIs(n.timeout, a + 1);
  }

  lemma FiresIfDue(nodes: seq<Node>, task: nat)
    requires Watched(nodes, task)
    ensures Fires(nodes, task) <==> Due(NodeOf(nodes, task)) && !Preempted(nodes, task)
  {}

  lemma CountedStep(nodes: seq<Node>, op: Op, task: nat, a: nat)
    requires Distinct(nodes) && Watched(nodes, task) && Legal(nodes, op) && op != Delete(task)
    requires NodeOf(nodes, task).timeout <= MAX_TIMEOUT && Counted(NodeOf(nodes, task), a)
    ensures var t := Step(nodes, op);
      && Watched(t, task) && NodeOf(t, task).timeout == NodeOf(nodes, task).timeout
      && Counted(NodeOf(t, task),
                 if Restarts(nodes, op, task) then 0 else a + if op.Tick? && Advances(nodes, task) then 1 else 0)
  {
    var n := NodeOf(nodes, task);
    match op
    case Tick =>
      TickNode(nodes, task);
      CountedAdvance(n, a);
      FiresIfDue(nodes, task);
    case Feed(fed) => FeedNode(nodes, fed, task);
    case Add(added, timeout) => FindAppend(nodes, Node(added, false, timeout, 0), task, 0);
    case Delete(deleted) => DeleteNode(nodes, deleted, task);
  }

  /** A node that was not there before the step is one just added. */
  lemma AppearsAdded(nodes: seq<Node>, op: Op, task: nat)
    requires Distinct(nodes) && (!Watched(nodes, task) || op == Delete(task)) && Watched(Step(nodes, op), task)
    ensures op.Add? && op.task == task && op.timeout != 0
    ensures NodeOf(Step(nodes, op), task) == Node(task, false, op.timeout, 0)
  {
    if op.Add? {
      FindAppend(nodes, Node(op.task, false, op.timeout, 0), task, 0);
    } else {
      OnlyAdds(nodes, op, task);
    }
  }

  /** No other operation brings a node in. */
  lemma OnlyAdds(nodes: seq<Node>, op: Op, task: nat)
    requires Distinct(nodes) && (!Watched(nodes, task) || op == Delete(task)) && !op.Add?
    ensures !Watched(Step(nodes, op), task)
  {
    match op
    case Tick => FindSame(nodes, TickAll(nodes), task, 0);
    case Feed(_) => FindSame(nodes, Step(nodes, op), task, 0);
    case Delete(deleted) => StaysAway(nodes, deleted, task);
  }

  lemma StaysAway(nodes: seq<Node>, deleted: nat, task: nat)
    requires Distinct(nodes) && (!Watched(nodes, task) || deleted == task)
    ensures !Watched(Step(nodes, Delete(deleted)), task)
  {
    var t, i := Step(nodes, Delete(deleted)), Find(nodes, deleted, 0);
    if i < |nodes| {
      assert nodes[i].task == deleted;
      forall k | 0 <= k < |t| ensures t[k].task != task { assert t[k] == nodes[if k < i then k else k + 1]; }
    }
  }

  /** In every run, the time run up by a node within reach is that of its advancing ticks. */
  lemma {:induction false} RunCounted(ops: seq<Op>, task: nat)
    requires AllLegal(ops) && Watched(StepAll(ops), task) && NodeOf(StepAll(ops), task).timeout <= MAX_TIMEOUT
    ensures Counted(NodeOf(StepAll(ops), task), AdvancesSince(ops, task))
  {
    var front, last := ops[..|ops| - 1], ops[|ops| - 1];
    var s := StepAll(front);
    RunDistinct(front);
    if !Watched(s, task) || last == Delete(task) {
      AppearsAdded(s, last, task);
    } else {
      SameTimeout(s, last, task);
      RunCounted(front, task);
      CountedStep(s, last, task, AdvancesSince(front, task));
    }
  }

  lemma SameTimeout(nodes: seq<Node>, op: Op, task: nat)
    requires Distinct(nodes) && Watched(nodes, task) && Legal(nodes, op) && op != Delete(task)
    ensures Watched(Step(nodes, op), task) && NodeOf(Step(nodes, op), task).timeout == NodeOf(nodes, task).timeout
    ensures NodeOf(Step(nodes, op), task).flag == (NodeOf(nodes, task).flag || op == Feed(task))
  {
    match op
    case Tick => TickNode(nodes, task);
    case Feed(fed) => FeedNode(nodes, fed, task);
    case Add(added, timeout) => FindAppend(nodes, Node(added, false, timeout, 0), task, 0);
    case Delete(deleted) => DeleteNode(nodes, deleted, task);
  }

  /** In every run, a tick fires the watchdog of a task if and only if the task was fed, as many ticks
      have advanced it since it was last fed or fired as its timeout has intervals, rounded up, and no
      watchdog listed before it fires at this tick. */
  lemma FiresExactly(ops: seq<Op>, task: nat)
    requires AllLegal(ops) && Watched(StepAll(ops), task) && NodeOf(StepAll(ops), task).timeout <= MAX_TIMEOUT
    ensures var s := StepAll(ops);
      Fires(s, task) <==>
        && NodeOf(s, task).flag && !Preempted(s, task)
        && AdvancesSince(ops, task) == Ceil(NodeOf(s, task).timeout)
  {
    RunCounted(ops, task);
    CountedAdvance(NodeOf(StepAll(ops), task), AdvancesSince(ops, task));
    FiresIfDue(StepAll(ops), task);
  }

  lemma {:induction false} AdvancesBounded(ops: seq<Op>, task: nat)
    ensures AdvancesSince(ops, task) <= TicksUnfed(ops, task)
  {
    if ops == [] {
    } else {
      AdvancesBounded(ops[..|ops| - 1], task);
    }
  }

  /** So a task that is fed at least that often never fires. */
  lemma FedOftenNeverFires(ops: seq<Op>, task: nat)
    requires AllLegal(ops) && Watched(StepAll(ops), task) && NodeOf(StepAll(ops), task).timeout <= MAX_TIMEOUT
    requires TicksUnfed(ops, task) < Ceil(NodeOf(StepAll(ops), task).timeout)
    ensures !Fires(StepAll(ops), task)
  {
    FiresExactly(ops, task);
    AdvancesBounded(ops, task);
  }

  /** Every tick since a task was last fed or fired advanced it or fired a node listed before. */
  lemma {:induction false} TicksSplit(ops: seq<Op>, task: nat)
    requires AllLegal(ops) && Watched(StepAll(ops), task) && NodeOf(StepAll(ops), task).flag
    ensures Ticks(ops, task) == AdvancesSince(ops, task) + Preemptions(ops, task)
  {
    var front, last := ops[..|ops| - 1], ops[|ops| - 1];
    var s := StepAll(front);
    RunDistinct(front);
    if !Watched(s, task) || last == Delete(task) {
      AppearsAdded(s, last, task);
    } else if !Restarts(s, last, task) {
      SameTimeout(s, last, task);
      RunCountsTimeout(front, task);
      TicksSplit(front, task);
    }
  }

  lemma {:induction false} RunCountsTimeout(ops: seq<Op>, task: nat)
    requires AllLegal(ops) && Watched(StepAll(ops), task)
    ensures NodeOf(StepAll(ops), task).timeout != 0
  {
    var front, last := ops[..|ops| - 1], ops[|ops| - 1];
    RunDistinct(front);
    if !Watched(StepAll(front), task) || last == Delete(task) {
      AppearsAdded(StepAll(front), last, task);
    } else {
      SameTimeout(StepAll(front), last, task);
      RunCountsTimeout(front, task);
    }
  }

  /** So a task that is not fed fires by tick Ceil + 1, plus one for each tick at which a watchdog listed
      before fired: there are never more ticks than that without it being fed or firing. */
  lemma UnfedFiresBy(ops: seq<Op>, task: nat)
    requires AllLegal(ops) && Watched(StepAll(ops), task) && NodeOf(StepAll(ops), task).flag
    requires NodeOf(StepAll(ops), task).timeout <= MAX_TIMEOUT
    ensures var c := Ceil(NodeOf(StepAll(ops), task).timeout) + Preemptions(ops, task);
      && Ticks(ops, task) <= c
      && (Ticks(ops, task) == c && !Preempted(StepAll(ops), task) ==> Fires(StepAll(ops), task))
  {
    TicksSplit(ops, task);
    RunCounted(ops, task);
    FiresExactly(ops, task);
  }

  // ----- timeouts out of reach -----

  function Rings(n: Node, k: nat): Node {
    if k == 0 then n else Advanced(Rings(n, k - 1))
  }

  lemma InReach(timeout: U32, k: nat)
    ensures INTERVAL * k < timeout ==> ToU32(INTERVAL * k) == INTERVAL * k
  {}

  lemma {:induction false} RingsIs(n: Node, k: nat)
    requires Counts(n) && n.running == 0 && k <= Ceil(n.timeout)
    ensures Rings(n, k) == n.(running := ToU32(INTERVAL * k))
    ensures k < Ceil(n.timeout) ==> !Due(Rings(n, k))
  {
    CeilIs(n.timeout, k);
    InReach(n.timeout, k);
    if k == 0 {
    } else {
      CeilIs(n.timeout, k - 1);
      InReach(n.timeout, k - 1);
      RingsIs(n, k - 1);
    }
  }

  /** A node that was just fed and then advanced Ceil times is due if and only if its timeout is at most
      MAX_TIMEOUT: with a larger one the counter has wrapped around and starts over. */
  lemma DueExactly(n: Node)
    requires Counts(n) && n.running == 0
    ensures Due(Rings(n, Ceil(n.timeout))) <==> n.timeout <= MAX_TIMEOUT
  {
    RingsIs(n, Ceil(n.timeout));
    CeilIs(n.timeout, Ceil(n.timeout));
    if n.timeout > MAX_TIMEOUT { assert Ceil(n.timeout) == 2147484; }
  }

  // ----- the list as it is scanned -----

  class WatchDogContext {
    var isRunning: bool
    var nodes: seq<Node>

    constructor ()
      ensures nodes == [] && isRunning
    {
      nodes, isRunning := [], true;
    }

    /** WatchDogProc: one tick; fired is the place of the node whose handler is called. */
    method Proc() returns (running: bool, fired: Option<nat>)
      modifies this`nodes
      ensures running == isRunning
      ensures nodes == if running then Step(old(nodes), Tick) else old(nodes)
      ensures fired == if running && FirstDue(old(nodes), 0) < |old(nodes)| then Some(FirstDue(old(nodes), 0)) else None
    {
      running, fired := isRunning, None;
      if !running {
        return;
      }
      var i := 0;
      while i < |nodes| && fired.None?
        invariant i <= |nodes| == |old(nodes)|
        invariant fired.None? ==> FirstDue(old(nodes), 0) == FirstDue(old(nodes), i)
        invariant fired.None? ==> forall k :: 0 <= k < i ==> nodes[k] == Advanced(old(nodes)[k])
        invariant fired.None? ==> forall k :: i <= k < |nodes| ==> nodes[k] == old(nodes)[k]
        invariant fired.Some? ==> fired.value == FirstDue(old(nodes), 0) < |nodes| && nodes == TickAll(old(nodes))
      {
        var n := nodes[i];
        if n.timeout == 0 || !n.flag {
        } else if n.timeout > n.running {
          nodes := nodes[i := n.(running := ToU32(n.running + INTERVAL))];
        } else {
          nodes := nodes[i := n.(running := 0)];
          fired := Some(i);
          assert nodes == TickAll(old(nodes));
        }
        i := i + 1;
      }
      assert nodes == TickAll(old(nodes));
    }

    /** DfxAddWatchDog; a node without a timeout or a name, or without memory, is not added. */
    method Append(task: nat, timeout: U32, named: bool, alloc: bool) returns (ok: bool)
      modifies this`nodes
      ensures ok <==> timeout != 0 && named && alloc
      ensures nodes == if ok then Step(old(nodes), Add(task, timeout)) else old(nodes)
    {
      if timeout == 0 || !named || !alloc {
        return false;
      }
      nodes := nodes + [Node(task, false, timeout, 0)];
      ok := true;
    }

    method FeedTask(task: nat) returns (ok: bool)
      modifies this`nodes
      ensures nodes == Step(old(nodes), Feed(task)) && ok == Watched(old(nodes), task)
    {
      for i := 0 to |nodes|
        invariant nodes == old(nodes) && Find(nodes, task, 0) == Find(nodes, task, i)
      {
        if nodes[i].task == task {
          nodes := nodes[i := nodes[i].(flag := true, running := 0)];
          return true;
        }
      }
      ok := false;
    }

    method Remove(task: nat)
      modifies this`nodes
      ensures nodes == Step(old(nodes), Delete(task))
    {
      for i := 0 to |nodes|
        invariant nodes == old(nodes) && Find(nodes, task, 0) == Find(nodes, task, i)
      {
        if nodes[i].task == task {
          nodes := nodes[..i] + nodes[i + 1..];
          return;
        }
      }
    }
  }
}
