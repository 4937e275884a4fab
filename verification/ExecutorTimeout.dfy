/** The time budget of a blocking executor call: four timed stages that share one timeout, which is
    cut down from the wrapping system clock between them. */
module ExecutorTimeout {
  import opened Common
  import opened SysClock

  /** What is left of a budget at the reading now, of a call begun at the reading begin. */
  function TimeoutUpdate(timeout: U32, begin: U32, now: U32): U32 {
    var delta := DeltaTime(now, begin);
    if delta > timeout then 0 else timeout - delta
  }

  /** One call: the time it begins, how long each timed stage blocks (API lock, task lock, send, wait)
      and how much other time passes after each of the first three. */
  datatype Timeline = Timeline(begin: nat, block: seq<nat>, gap: seq<nat>)
  {
    predicate Shape() { |block| == 4 && |gap| == 3 }

    /** Time elapsed when the budget is updated after stage k. */
    function Elapsed(k: nat): nat
      requires Shape() && 1 <= k <= 3
    {
      if k == 1 then block[0] + gap[0]
      else Elapsed(k - 1) + block[k - 1] + gap[k - 1]
    }

    /** The budget after the update that follows stage k. */
    function Budget(timeout: U32, k: nat): U32
      requires Shape() && 1 <= k <= 3
    {
      TimeoutUpdate(if k == 1 then timeout else Budget(timeout, k - 1), Reading(begin), Reading(begin + Elapsed(k)))
    }

    /** Every timed primitive blocks at most the timeout it is given; the task lock stage is given the
        full timeout again, not what is left of it. */
    predicate Timely(timeout: U32)
      requires Shape()
    {
      && block[0] <= timeout
      && block[1] <= timeout
      && block[2] <= Budget(timeout, 2)
      && block[3] <= Budget(timeout, 3)
    }

    function Blocked(): nat
      requires Shape()
    {
      block[0] + block[1] + block[2] + block[3]
    }
  }

  lemma UpdateExact(timeout: U32, begin: nat, elapsed: nat)
    requires elapsed < TWO32
    ensures TimeoutUpdate(timeout, Reading(begin), Reading(begin + elapsed)) == Max(0, timeout - elapsed)
  {
    DeltaTimeIsElapsed(begin, elapsed);
  }

  /** The budgets in closed form: each update subtracts all the time since the call began once more. */
  lemma BudgetExact(t: Timeline, timeout: U32)
    requires t.Shape() && t.Elapsed(3) < TWO32
    ensures t.Elapsed(1) <= t.Elapsed(2) <= t.Elapsed(3)
    ensures t.Budget(timeout, 1) == Max(0, timeout - t.Elapsed(1))
    ensures t.Budget(timeout, 2) == Max(0, timeout - t.Elapsed(1) - t.Elapsed(2))
    ensures t.Budget(timeout, 3) == Max(0, timeout - t.Elapsed(1) - t.Elapsed(2) - t.Elapsed(3))
  {
    UpdateExact(timeout, t.begin, t.Elapsed(1));
    UpdateExact(t.Budget(timeout, 1), t.begin, t.Elapsed(2));
    UpdateExact(t.Budget(timeout, 2), t.begin, t.Elapsed(3));
  }

  /** Across clock wraps the timed stages block at most twice the timeout in all, and at most the
      timeout if and only if the two lock stages together stayed within it. */
  lemma BlockedWithinTwice(t: Timeline, timeout: U32)
    requires t.Shape() && t.Timely(timeout) && t.Elapsed(3) < TWO32
    ensures t.Blocked() <= 2 * timeout
    ensures t.Blocked() <= timeout <==> t.block[0] + t.block[1] <= timeout
  {
    BudgetExact(t, timeout);
  }

  /** Twice the timeout is reached: both locks are obtained at the last moment. */
  lemma TwiceIsReached(timeout: U32, begin: nat)
    requires 2 * timeout < TWO32
    ensures var t := Timeline(begin, [timeout, timeout, 0, 0], [0, 0, 0]);
      t.Timely(timeout) && t.Blocked() == 2 * timeout
  {
    var t := Timeline(begin, [timeout, timeout, 0, 0], [0, 0, 0]);
    assert t.Elapsed(1) == timeout;
    assert t.Elapsed(2) == t.Elapsed(3) == 2 * timeout;
    BudgetExact(t, timeout);
  }

  /** The final wait may be given less than what is left of the timeout, and gets all of it exactly
      when no time had passed at the first two updates (or nothing is left). */
  lemma WaitBudgetShort(t: Timeline, timeout: U32)
    requires t.Shape() && t.Elapsed(3) < TWO32
    ensures t.Budget(timeout, 3) <= Max(0, timeout - t.Elapsed(3))
    ensures t.Budget(timeout, 3) == Max(0, timeout - t.Elapsed(3)) <==> t.Elapsed(2) == 0 || t.Elapsed(3) >= timeout
  {
    BudgetExact(t, timeout);
  }
}
