/** The buffer of utils_buffer.c that grows on demand and shrinks again after a run of short uses. */
module AdaptiveBuffer {
  import opened Common

  const MAX_ALLOC_SIZE := 64 * 1024
  const MAX_SIZE := 2 * 1024 * 1024 + MAX_ALLOC_SIZE
  const EXPAND_COUNT := 5

  /** The buffer is absent after a failed allocation; its size is then 0. */
  datatype Context = Context(exCnt: nat, allocSize: nat, maxSize: nat, buffer: Option<Bytes>, len: nat)

  function Size(s: Context): nat {
    if s.buffer.Some? then |s.buffer.value| else 0
  }

  function Realloc(s: Context, size: nat, fails: bool): Context {
    if s.buffer.Some? && |s.buffer.value| == size then s
    else if fails then s.(buffer := None)
    else s.(buffer := Some(Zeros(size)))
  }

  /** What happens to the buffer: it is taken, written by its user, expanded and given back. fails: the
      allocation that may be needed fails. */
  datatype Op =
    | Get(waits: bool, fails: bool)   // waits: the semaphore was taken
    | Use(content: Bytes, len: nat)
    | Expand(max: nat, fails: bool)
    | Release(fails: bool)

  datatype Status = Done | ParamInvalid | OverSize | NoMemory | TimedOut

  function Step(s: Context, op: Op): (Context, Status) {
    match op
    case Get(waits, fails) =>
      if !waits then (s, TimedOut)
      else
        var t := if Size(s) == 0 || s.buffer.None? then Realloc(s, s.allocSize, fails) else s;
        if t.buffer.None? then (t, NoMemory) else (t.(buffer := Some(Zeros(Size(t))), len := 0), Done)
    case Use(content, len) =>
      if |content| == Size(s) && s.buffer.Some? && len <= Size(s) then (s.(buffer := Some(content), len := len), Done)
      else (s, ParamInvalid)
    case Expand(max, fails) =>
      if s.len >= Size(s) then (s, ParamInvalid)
      else if max <= Size(s) then (s, Done)
      else if max > s.maxSize then (s, OverSize)
      else if fails then (s, NoMemory)
      else (s.(buffer := Some(s.buffer.value[..s.len] + Zeros(max - s.len)), exCnt := EXPAND_COUNT), Done)
    case Release(fails) =>
      if s.len > s.allocSize then (s.(exCnt := EXPAND_COUNT), Done)
      else if s.exCnt == 0 then (s, Done)
      else
        var t := s.(exCnt := s.exCnt - 1);
        (if t.exCnt == 0 then Realloc(t, s.allocSize, fails) else t, Done)
  }

  /** What holds in every reachable state: a buffer that is there is no smaller than the usual size and
      no larger than it may get; when the count is down it has the usual size; one that is not there has
      nothing to count down. */
  predicate Inv(s: Context) {
    && s.exCnt <= EXPAND_COUNT
    && (s.buffer.Some? ==> s.allocSize <= |s.buffer.value| <= Max(s.allocSize, s.maxSize))
    && (s.exCnt == 0 ==> s.buffer.None? || |s.buffer.value| == s.allocSize)
    && (s.buffer.None? ==> s.exCnt == 0 && s.len <= s.allocSize)
  }

  lemma StepKeeps(s: Context, op: Op)
    requires Inv(s)
    ensures var t := Step(s, op).0; Inv(t) && t.allocSize == s.allocSize && t.maxSize == s.maxSize
  {}

  function StepAll(s: Context, ops: seq<Op>): Context {
    if ops == [] then s else Step(StepAll(s, ops[..|ops| - 1]), ops[|ops| - 1]).0
  }

  lemma {:induction false} RunKeeps(s: Context, ops: seq<Op>)
    requires Inv(s)
    ensures var t := StepAll(s, ops); Inv(t) && t.allocSize == s.allocSize && t.maxSize == s.maxSize
  {
    if ops == [] {
    } else {
      RunKeeps(s, ops[..|ops| - 1]);
      StepKeeps(StepAll(s, ops[..|ops| - 1]), ops[|ops| - 1]);
    }
  }

  // ----- taking and giving back -----

  /** Taking the buffer succeeds if and only if the semaphore was taken and there is a buffer or memory for one
      of the usual size; it is then zeroed, of the size it had or the usual one, with nothing in use. */
  lemma GetExact(s: Context, waits: bool, fails: bool)
    requires Inv(s)
    ensures var (t, status) := Step(s, Get(waits, fails));
      && (status.Done? <==> waits && (s.buffer.Some? || !fails))
      && (status.TimedOut? <==> !waits)
      && (status.Done? ==> t == s.(buffer := Some(Zeros(if s.buffer.Some? then Size(s) else s.allocSize)), len := 0))
      && (!status.Done? ==> t == s)
  {
    if s.buffer.Some? && Size(s) == 0 { assert s.allocSize == 0; }
  }

  /** A use longer than the usual size sets the count back and keeps the buffer; any other lowers the count by
      one, and the buffer changes only when it comes down to zero: then it has the usual size, or is absent
      for want of memory. So only short uses in a row shrink the buffer. */
  lemma ReleaseExact(s: Context, fails: bool)
    requires Inv(s)
    ensures var t := Step(s, Release(fails)).0;
      && t.len == s.len && t.allocSize == s.allocSize && t.maxSize == s.maxSize
      && (s.len > s.allocSize ==> t.exCnt == 5 && t.buffer == s.buffer)
      && (s.len <= s.allocSize ==> t.exCnt == Max(0, s.exCnt - 1))
      && (s.len <= s.allocSize && s.exCnt != 1 ==> t.buffer == s.buffer)
      && (s.len <= s.allocSize && s.exCnt == 1 && Size(s) == s.allocSize ==> t.buffer == s.buffer)
      && (s.len <= s.allocSize && s.exCnt == 1 && Size(s) != s.allocSize ==>
            t.buffer == if fails then None else Some(Zeros(s.allocSize)))
  {}

  // ----- growing -----

  /** Expanding keeps the bytes in use and the length, makes room as asked, and zeroes the rest; a failed
      expansion, for want of memory or because too much was asked, changes nothing at all. */
  lemma ExpandKeeps(s: Context, max: nat, fails: bool)
    requires Inv(s)
    ensures var (t, status) := Step(s, Expand(max, fails));
      && (status.Done? <==> s.len < Size(s) && (max <= Size(s) || (max <= s.maxSize && !fails)))
      && (!status.Done? ==> t == s)
      && (status.Done? ==> t.len == s.len <= Size(t) == Max(Size(s), max) && t.buffer.Some?)
      && (status.Done? ==> t.buffer.value[..s.len] == s.buffer.value[..s.len])
      && (status.Done? && max > Size(s) ==> forall k :: s.len <= k < max ==> t.buffer.value[k] == 0)
  {}

  // ----- shrinking -----

  /** A run without expansion in which no use is long, starting from a short one. */
  predicate ShortRun(s: Context, ops: seq<Op>) {
    && s.len <= s.allocSize
    && forall k :: 0 <= k < |ops| ==> !ops[k].Expand? && (ops[k].Use? ==> ops[k].len <= s.allocSize)
  }

  function Releases(ops: seq<Op>): nat {
    if ops == [] then 0 else Releases(ops[..|ops| - 1]) + if ops[|ops| - 1].Release? then 1 else 0
  }

  lemma ShortStep(s: Context, op: Op)
    requires Inv(s) && s.len <= s.allocSize && !op.Expand? && (op.Use? ==> op.len <= s.allocSize)
    ensures var t := Step(s, op).0;
      && Inv(t) && t.len <= t.allocSize == s.allocSize
      && t.exCnt == (if op.Release? then Max(0, s.exCnt - 1) else s.exCnt)
      && (t.exCnt > 0 ==> Size(t) == Size(s))
  {}

  /** After k short releases the count is down by k; until it is down to zero the expanded buffer stays,
      and from then on a buffer that is there has the usual size. */
  lemma {:induction false} ShortReleases(s: Context, ops: seq<Op>)
    requires Inv(s) && ShortRun(s, ops)
    ensures var t, k := StepAll(s, ops), Releases(ops);
      && Inv(t) && t.len <= t.allocSize == s.allocSize
      && t.exCnt == Max(0, s.exCnt - k)
      && (k < s.exCnt ==> t.buffer.Some? && Size(t) == Size(s))
      && (k >= s.exCnt ==> t.buffer.None? || Size(t) == s.allocSize)
  {
    if ops == [] {
    } else {
      var front, last := ops[..|ops| - 1], ops[|ops| - 1];
      ShortReleases(s, front);
      ShortStep(StepAll(s, front), last);
    }
  }

  /** So after an expansion exactly EXPAND_COUNT short releases in a row bring the usual size back. */
  lemma ShrinksAfterExpansion(s: Context, max: nat, ops: seq<Op>)
    requires Inv(s) && s.allocSize < max && Size(s) < max && Step(s, Expand(max, false)).1.Done?
    requires ShortRun(Step(s, Expand(max, false)).0, ops)
    ensures var t := StepAll(Step(s, Expand(max, false)).0, ops);
      && (Releases(ops) < EXPAND_COUNT ==> Size(t) == max)
      && (Releases(ops) >= EXPAND_COUNT ==> t.buffer.None? || Size(t) == s.allocSize)
  {
    StepKeeps(s, Expand(max, false));
    ShortReleases(Step(s, Expand(max, false)).0, ops);
  }

  // ----- the context as it stands in memory -----

  class BufferContext {
    var exCnt: nat
    const allocSize: nat
    const maxSize: nat
    var buffer: array?<Byte>
    var len: nat

    ghost function View(): Context
      reads this, buffer
    {
      Context(exCnt, allocSize, maxSize, if buffer == null then None else Some(buffer[..]), len)
    }

    constructor (preAlloc: nat, max: nat)
      requires preAlloc <= MAX_ALLOC_SIZE && max <= MAX_SIZE
      ensures Inv(View()) && View() == Context(0, preAlloc, max, Some(Zeros(preAlloc)), 0) && fresh(buffer)
    {
      exCnt, allocSize, maxSize, len := 0, preAlloc, max, 0;
      buffer := new Byte[preAlloc](_ => 0);
      new;
      assert buffer[..] == Zeros(preAlloc);
    }

    /** Sizes over the limits, or no memory: no context. */
    static method New(preAlloc: nat, max: nat, alloc: bool) returns (c: BufferContext?)
      ensures c == null <==> preAlloc > MAX_ALLOC_SIZE || max > MAX_SIZE || !alloc
      ensures c != null ==> fresh(c) && c.View() == Context(0, preAlloc, max, Some(Zeros(preAlloc)), 0) && Inv(c.View())
    {
      if preAlloc > MAX_ALLOC_SIZE || max > MAX_SIZE || !alloc {
        return null;
      }
      c := new BufferContext(preAlloc, max);
    }

    method BufferRealloc(size: nat, fails: bool) returns (ok: bool)
      modifies this
      ensures View() == Realloc(old(View()), size, fails) && ok == (buffer != null)
      ensures buffer == old(buffer) || buffer == null || fresh(buffer)
    {
      if buffer != null && buffer.Length == size {
        return true;
      }
      buffer := null;
      if fails {
        return false;
      }
      buffer := new Byte[size](_ => 0);
      assert buffer[..] == Zeros(size);
      ok := true;
    }

    method GetBuffer(waits: bool, fails: bool) returns (status: Status)
      modifies this, buffer
      ensures (View(), status) == Step(old(View()), Get(waits, fails))
      ensures status.Done? ==> buffer != null && len == 0 && forall k :: 0 <= k < buffer.Length ==> buffer[k] == 0
      ensures status.Done? ==> buffer.Length == if old(Size(View())) == 0 then allocSize else old(Size(View()))
    {
      if !waits {
        return TimedOut;
      }
      if buffer == null || buffer.Length == 0 {
        var ok := BufferRealloc(allocSize, fails);
        if !ok {
          return NoMemory;
        }
      }
      forall k | 0 <= k < buffer.Length {
        buffer[k] := 0;
      }
      len := 0;
      assert buffer[..] == Zeros(buffer.Length);
      status := Done;
    }

    method ReleaseBuffer(fails: bool)
      modifies this
      ensures View() == Step(old(View()), Release(fails)).0
    {
      if len > allocSize {
        exCnt := EXPAND_COUNT;
      } else if exCnt > 0 {
        exCnt := exCnt - 1;
        if exCnt == 0 {
          var ok := BufferRealloc(allocSize, fails);
        }
      }
    }

    method ExpandBuffer(max: nat, fails: bool) returns (status: Status)
      modifies this
      ensures (View(), status) == Step(old(View()), Expand(max, fails))
    {
      if len >= if buffer == null then 0 else buffer.Length {
        return ParamInvalid;
      }
      if max <= buffer.Length {
        return Done;
      }
      if max > maxSize {
        return OverSize;
      }
      var temp := buffer;
      buffer := null;
      var ok := BufferRealloc(max, fails);
      if !ok {
        buffer := temp;
        return NoMemory;
      }
      for k := 0 to len
        invariant buffer != null && fresh(buffer) && buffer.Length == max && len == old(len) && exCnt == old(exCnt)
        invariant forall j :: 0 <= j < k ==> buffer[j] == old(buffer[j])
        invariant forall j :: k <= j < max ==> buffer[j] == 0
      {
        buffer[k] := temp[k];
      }
      exCnt := EXPAND_COUNT;
      assert buffer[..] == temp[..len] + Zeros(max - len);
      status := Done;
    }
  }
}
