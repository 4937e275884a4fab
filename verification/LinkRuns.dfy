/** Packets of a message that arrive one after the other, in any order, any number of times and at any
    time: each is stored, and a message that is complete is handed on at once (linklayer_process.c). */
module LinkRuns {
  import opened Common
  import opened SysClock
  import opened LinkLayer

  // ----- arrivals -----

  /** A fragment arrives: its place, the two readings of the clock, and whether memory runs out. */
  datatype Arrival = Arrival(index: nat, now: U64, later: U64, alloc: bool)

  /** Which fragments an entry should have, and since when. */
  datatype Window = Window(since: U64, mask: seq<bool>)

  predicate Indexed(arrivals: seq<Arrival>, n: nat) {
    forall k :: 0 <= k < |arrivals| ==> arrivals[k].index < n
  }

  predicate Fitting(message: Bytes, arrivals: seq<Arrival>) {
    0 < |message| && FragmentCount(|message|) <= MAX_FRAGMENTS && Indexed(arrivals, FragmentCount(|message|))
  }

  predicate Live(w: Option<Window>, now: U64) {
    w.Some? && DeltaTime(ToU32(now), ToU32(w.value.since)) < PKG_TIMEOUT
  }

  predicate WindowOk(w: Option<Window>) {
    w.Some? ==> |w.value.mask| == MAX_FRAGMENTS
  }

  /** An arrival adds its fragment to a window that is not too old, and opens a new one if there is none. */
  function Note(w: Option<Window>, a: Arrival): (r: Option<Window>)
    requires WindowOk(w) && a.index < MAX_FRAGMENTS
    ensures WindowOk(r)
  {
    if Live(w, a.now) then Some(w.value.(mask := w.value.mask[a.index := true]))
    else if a.alloc then None
    else Some(Window(a.later, seq(MAX_FRAGMENTS, _ => false)[a.index := true]))
  }

  /** The fragments that arrived since the last time an arrival found the entry too old. */
  function WindowOf(arrivals: seq<Arrival>): (w: Option<Window>)
    requires Indexed(arrivals, MAX_FRAGMENTS)
    ensures WindowOk(w)
  {
    if arrivals == [] then None else Note(WindowOf(arrivals[..|arrivals| - 1]), arrivals[|arrivals| - 1])
  }

  /** The arrivals amount to a whole message. */
  predicate Complete(arrivals: seq<Arrival>, n: nat)
    requires Indexed(arrivals, MAX_FRAGMENTS)
  {
    var w := WindowOf(arrivals);
    w.Some? && AllArrived(w.value.mask, n)
  }

  /** The arrivals since the last that completed the message. */
  function Rest(arrivals: seq<Arrival>, n: nat): (r: seq<Arrival>)
    requires Indexed(arrivals, MAX_FRAGMENTS)
    ensures Indexed(r, MAX_FRAGMENTS)
  {
    if arrivals == [] then []
    else
      var r := Rest(arrivals[..|arrivals| - 1], n) + [arrivals[|arrivals| - 1]];
      if Complete(r, n) then [] else r
  }

  /** How many times in succession the arrivals amount to a whole message. */
  function Covers(arrivals: seq<Arrival>, n: nat): nat
    requires Indexed(arrivals, MAX_FRAGMENTS)
  {
    if arrivals == [] then 0
    else
      var front, a := arrivals[..|arrivals| - 1], arrivals[|arrivals| - 1];
      Covers(front, n) + if Complete(Rest(front, n) + [a], n) then 1 else 0
  }

  // ----- what the receiver does -----

  function Process(pool: seq<Entry>, token: Byte, message: Bytes, a: Arrival, known: bool): (seq<Entry>, Option<Bytes>)
    requires PoolOk(pool) && 0 < |message| && a.index < FragmentCount(|message|)
  {
    CountBounds(|message|);
    var n, data := FragmentCount(|message|), Chunk(message, a.index);
    var (p, status) := Insert(pool, token, n, a.index, data, a.now, a.later, a.alloc);
    if !status.Stored? || !known then (p, None) else Merge(p, token)
  }

  function Added(out: seq<Bytes>, message: Option<Bytes>): seq<Bytes> {
    if message.Some? then out + [message.value] else out
  }

  /** The pool and what was handed on, after all the arrivals. */
  function ProcessAll(token: Byte, message: Bytes, arrivals: seq<Arrival>, known: bool): (seq<Entry>, seq<Bytes>)
    requires Fitting(message, arrivals)
  {
    if arrivals == [] then ([], [])
    else
      var (pool, out) := ProcessAll(token, message, arrivals[..|arrivals| - 1], known);
      if !PoolOk(pool) then (pool, out)
      else
        var (p, m) := Process(pool, token, message, arrivals[|arrivals| - 1], known);
        (p, Added(out, m))
  }

  /** The pool has the entry that a window describes. */
  ghost predicate Tracks(pool: seq<Entry>, token: Byte, message: Bytes, w: Option<Window>) {
    && (w.None? ==> pool == [])
    && (w.Some? ==> |pool| == 1 && Partial(message, pool[0]) && pool[0].token == token)
    && (w.Some? ==> pool[0].savedTime == w.value.since && pool[0].mask == w.value.mask)
  }

  lemma InsertTracks(pool: seq<Entry>, token: Byte, message: Bytes, w: Option<Window>, a: Arrival)
    requires PoolOk(pool) && 0 < |message| && FragmentCount(|message|) <= MAX_FRAGMENTS
    requires a.index < FragmentCount(|message|) && SLOT * a.index < |message|
    requires WindowOk(w) && Tracks(pool, token, message, w)
    ensures var (p, status) :=
              Insert(pool, token, FragmentCount(|message|), a.index, Chunk(message, a.index), a.now, a.later, a.alloc);
      (status.Stored? <==> Note(w, a).Some?) && Tracks(p, token, message, Note(w, a))
  {
    CountBounds(|message|);
    FreshPartial(message, token, a.later);
    if Live(w, a.now) {
      assert ClearTimedOut(pool, a.now) == pool;
      StoreKeeps(message, pool[0], a.index);
    } else {
      assert ClearTimedOut(pool, a.now) == [];
      StoreKeeps(message, Fresh(token, FragmentCount(|message|), a.later), a.index);
    }
  }

  /** An arrival hands on the message, and nothing else, if and only if it completes it; the entry is then
      gone. */
  lemma ProcessTracks(pool: seq<Entry>, token: Byte, message: Bytes, w: Option<Window>, a: Arrival, known: bool)
    requires PoolOk(pool) && 0 < |message| && a.index < FragmentCount(|message|) <= MAX_FRAGMENTS
    requires WindowOk(w) && Tracks(pool, token, message, w)
    ensures var (p, m) := Process(pool, token, message, a, known);
      var v := Note(w, a);
      var done := known && v.Some? && AllArrived(v.value.mask, FragmentCount(|message|));
      m == (if done then Some(message) else None) && Tracks(p, token, message, if done then None else v)
  {
    CountBounds(|message|);
    InsertTracks(pool, token, message, w, a);
    var n, data := FragmentCount(|message|), Chunk(message, a.index);
    var p := Insert(pool, token, n, a.index, data, a.now, a.later, a.alloc).0;
    if Note(w, a).Some? { CompleteIs(message, p[0]); }
  }

  function Copies(message: Bytes, k: nat): (r: seq<Bytes>)
    ensures |r| == k && forall i :: 0 <= i < k ==> r[i] == message
  {
    seq(k, _ => message)
  }

  lemma CopiesMore(message: Bytes, k: nat)
    ensures Added(Copies(message, k), Some(message)) == Copies(message, k + 1)
  {}

  lemma WindowMore(x: seq<Arrival>, a: Arrival)
    requires Indexed(x, MAX_FRAGMENTS) && a.index < MAX_FRAGMENTS
    ensures Indexed(x + [a], MAX_FRAGMENTS) && WindowOf(x + [a]) == Note(WindowOf(x), a)
  {
    assert (x + [a])[..|x|] == x;
  }

  /** Whatever the order, the repetitions and the times of the arrivals: what is handed on is the message,
      once for each time that the arrivals amount to it, and the pool has exactly the fragments that
      arrived since, each in its place. */
  lemma {:induction false} Delivers(token: Byte, message: Bytes, arrivals: seq<Arrival>)
    requires Fitting(message, arrivals)
    ensures var (pool, out) := ProcessAll(token, message, arrivals, true);
      var n := FragmentCount(|message|);
      out == Copies(message, Covers(arrivals, n)) && Tracks(pool, token, message, WindowOf(Rest(arrivals, n)))
  {
    if arrivals == [] {
    } else {
      var front, a, n := arrivals[..|arrivals| - 1], arrivals[|arrivals| - 1], FragmentCount(|message|);
      Delivers(token, message, front);
      WindowMore(Rest(front, n), a);
      CopiesMore(message, Covers(front, n));
      ProcessTracks(ProcessAll(token, message, front, true).0, token, message, WindowOf(Rest(front, n)), a, true);
    }
  }

  /** Under an encryption type without a handler fragments are stored and nothing is ever handed on. */
  lemma {:induction false} UnknownDelivers(token: Byte, message: Bytes, arrivals: seq<Arrival>)
    requires Fitting(message, arrivals)
    ensures var (pool, out) := ProcessAll(token, message, arrivals, false);
      out == [] && Tracks(pool, token, message, WindowOf(arrivals))
  {
    if arrivals == [] {
    } else {
      var front, a := arrivals[..|arrivals| - 1], arrivals[|arrivals| - 1];
      UnknownDelivers(token, message, front);
      ProcessTracks(ProcessAll(token, message, front, false).0, token, message, WindowOf(front), a, false);
    }
  }

  // ----- exactly once -----

  /** At no point do the arrivals amount to a whole message. */
  ghost predicate Uncovered(arrivals: seq<Arrival>, n: nat)
    requires Indexed(arrivals, MAX_FRAGMENTS)
  {
    forall j :: 0 <= j <= |arrivals| ==> !Complete(arrivals[..j], n)
  }

  /** The arrivals amount to a whole message for the first time after the k-th. */
  ghost predicate FirstAt(arrivals: seq<Arrival>, k: nat, n: nat)
    requires Indexed(arrivals, MAX_FRAGMENTS)
  {
    0 < k <= |arrivals| && Complete(arrivals[..k], n) && Uncovered(arrivals[..k - 1], n)
  }

  lemma UncoveredLast(x: seq<Arrival>, n: nat)
    requires Indexed(x, MAX_FRAGMENTS) && x != []
    ensures Uncovered(x, n) <==> Uncovered(x[..|x| - 1], n) && !Complete(x, n)
  {
    var front := x[..|x| - 1];
    assert x[..|x|] == x;
    forall j | 0 <= j <= |front| ensures front[..j] == x[..j] {}
  }

  lemma {:induction false} UncoveredIs(x: seq<Arrival>, n: nat)
    requires Indexed(x, MAX_FRAGMENTS)
    ensures Uncovered(x, n) <==> Covers(x, n) == 0
    ensures Uncovered(x, n) ==> Rest(x, n) == x
  {
    if x != [] {
      var front, a := x[..|x| - 1], x[|x| - 1];
      UncoveredIs(front, n);
      UncoveredLast(x, n);
      assert front + [a] == x;
    } else {
      assert !Complete(x[..0], n);
    }
  }

  lemma {:induction false} AfterFirst(x: seq<Arrival>, k: nat, n: nat)
    requires Indexed(x, MAX_FRAGMENTS) && FirstAt(x, k, n)
    ensures Covers(x, n) == 1 + Covers(x[k..], n) && Rest(x, n) == Rest(x[k..], n)
  {
    var front, a := x[..|x| - 1], x[|x| - 1];
    assert front + [a] == x;
    if k == |x| {
      UncoveredIs(front, n);
      assert x[..k] == x && x[..k - 1] == front;
    } else {
      assert front[..k] == x[..k] && front[..k - 1] == x[..k - 1];
      AfterFirst(front, k, n);
      assert x[k..][..|x[k..]| - 1] == front[k..];
    }
  }

  lemma {:induction false} FirstExists(x: seq<Arrival>, n: nat) returns (k: nat)
    requires Indexed(x, MAX_FRAGMENTS) && Covers(x, n) > 0
    ensures FirstAt(x, k, n)
  {
    var front := x[..|x| - 1];
    if Covers(front, n) > 0 {
      k := FirstExists(front, n);
      assert front[..k] == x[..k] && front[..k - 1] == x[..k - 1];
    } else {
      k := |x|;
      UncoveredIs(front, n);
      assert front + [x[k - 1]] == x == x[..k];
    }
  }

  /** The arrivals amount to a whole message after the k-th, and those after it do not. */
  ghost predicate OnceAt(x: seq<Arrival>, k: nat, n: nat)
    requires Indexed(x, MAX_FRAGMENTS)
  {
    FirstAt(x, k, n) && Uncovered(x[k..], n)
  }

  lemma OnceIs(x: seq<Arrival>, k: nat, n: nat)
    requires Indexed(x, MAX_FRAGMENTS) && OnceAt(x, k, n)
    ensures Covers(x, n) == 1 && Rest(x, n) == x[k..]
  {
    AfterFirst(x, k, n);
    UncoveredIs(x[k..], n);
  }

  lemma OnceExists(x: seq<Arrival>, n: nat) returns (k: nat)
    requires Indexed(x, MAX_FRAGMENTS) && Covers(x, n) == 1
    ensures OnceAt(x, k, n)
  {
    k := FirstExists(x, n);
    AfterFirst(x, k, n);
    UncoveredIs(x[k..], n);
  }

  lemma CopiesIs(message: Bytes, k: nat)
    ensures Copies(message, k) == [] <==> k == 0
    ensures Copies(message, k) == [message] <==> k == 1
  {}

  /** The message is handed on exactly once if and only if the arrivals amount to it and those after the
      first time do not; and the pool is empty after that if and only if those have not opened an entry
      again. */
  lemma ExactlyOnce(token: Byte, message: Bytes, x: seq<Arrival>)
    requires Fitting(message, x)
    ensures var (pool, out) := ProcessAll(token, message, x, true);
      var n := FragmentCount(|message|);
      && (out == [] <==> Uncovered(x, n))
      && (out == [message] <==> exists k: nat :: OnceAt(x, k, n))
      && (out == [message] && pool == [] <==> exists k: nat :: OnceAt(x, k, n) && WindowOf(x[k..]).None?)
  {
    var n := FragmentCount(|message|);
    Delivers(token, message, x);
    UncoveredIs(x, n);
    CopiesIs(message, Covers(x, n));
    if Covers(x, n) == 1 {
      var k := OnceExists(x, n);
      OnceIs(x, k, n);
    }
    forall k: nat | OnceAt(x, k, n) ensures Covers(x, n) == 1 && Rest(x, n) == x[k..] { OnceIs(x, k, n); }
  }

  // ----- arrivals within the timeout -----

  predicate HasArrived(x: seq<Arrival>, i: nat) {
    exists k :: 0 <= k < |x| && x[k].index == i
  }

  /** Every fragment is among the arrivals. */
  predicate Covered(x: seq<Arrival>, n: nat) {
    forall i :: 0 <= i < n ==> HasArrived(x, i)
  }

  predicate Near(a: Arrival, b: Arrival) {
    DeltaTime(ToU32(b.now), ToU32(a.later)) < PKG_TIMEOUT
  }

  /** Memory never runs out, and no arrival finds an entry that an earlier one opened too old. */
  predicate Prompt(x: seq<Arrival>) {
    && (forall k :: 0 <= k < |x| ==> !x[k].alloc)
    && (forall j, k :: 0 <= j < k < |x| ==> Near(x[j], x[k]))
  }

  lemma {:induction false} PromptWindow(x: seq<Arrival>, i: nat)
    requires Indexed(x, MAX_FRAGMENTS) && Prompt(x) && x != [] && i < MAX_FRAGMENTS
    ensures var w := WindowOf(x);
      w.Some? && w.value.since == x[0].later && (w.value.mask[i] <==> HasArrived(x, i))
  {
    var front, a := x[..|x| - 1], x[|x| - 1];
    if front != [] {
      assert Near(x[0], a);
      PromptWindow(front, i);
      if HasArrived(front, i) {
        var k :| 0 <= k < |front| && front[k].index == i;
        assert x[k].index == i;
      }
    }
    if a.index == i { assert x[|x| - 1].index == i; }
  }

  lemma PromptComplete(x: seq<Arrival>, n: nat)
    requires Indexed(x, n) && 0 < n <= MAX_FRAGMENTS && Prompt(x)
    ensures Complete(x, n) <==> Covered(x, n)
  {
    if x != [] {
      forall i | 0 <= i < n ensures WindowOf(x).Some? && (WindowOf(x).value.mask[i] <==> HasArrived(x, i)) {
        PromptWindow(x, i);
      }
    } else {
      assert !HasArrived(x, 0);
    }
  }

  lemma PrefixCovered(x: seq<Arrival>, j: nat, n: nat)
    requires j <= |x| && Covered(x[..j], n)
    ensures Covered(x, n)
  {
    forall i | 0 <= i < n ensures HasArrived(x, i) {
      assert HasArrived(x[..j], i);
      var k :| 0 <= k < |x[..j]| && x[..j][k].index == i;
      assert x[k].index == i;
    }
  }

  lemma PromptUncovered(x: seq<Arrival>, n: nat)
    requires Indexed(x, n) && 0 < n <= MAX_FRAGMENTS && Prompt(x)
    ensures Uncovered(x, n) <==> !Covered(x, n)
  {
    assert x[..|x|] == x;
    PromptComplete(x, n);
    forall j | 0 <= j <= |x| && Complete(x[..j], n) ensures Covered(x, n) {
      PromptComplete(x[..j], n);
      PrefixCovered(x, j, n);
    }
  }

  /** The k-th arrival brings the last fragment that was missing. */
  predicate LastMissing(x: seq<Arrival>, k: nat, n: nat) {
    0 < k <= |x| && Covered(x[..k], n) && !Covered(x[..k - 1], n)
  }

  lemma PromptOnceAt(x: seq<Arrival>, k: nat, n: nat)
    requires Indexed(x, n) && 0 < n <= MAX_FRAGMENTS && Prompt(x)
    ensures OnceAt(x, k, n) <==> LastMissing(x, k, n) && !Covered(x[k..], n)
  {
    if 0 < k <= |x| {
      PromptComplete(x[..k], n);
      PromptUncovered(x[..k - 1], n);
      PromptUncovered(x[k..], n);
    }
  }

  lemma PromptEmpty(x: seq<Arrival>)
    requires Indexed(x, MAX_FRAGMENTS) && Prompt(x)
    ensures WindowOf(x).None? <==> x == []
  {
    if x != [] { PromptWindow(x, 0); }
  }

  /** When all arrivals are within the timeout: nothing is handed on if and only if some fragment never
      arrived; the message is handed on exactly once if and only if each arrived and, after the last that
      was missing, not all of them again; and the pool is empty then if and only if that was the last
      arrival. */
  lemma PromptOnce(token: Byte, message: Bytes, x: seq<Arrival>)
    requires Fitting(message, x) && Prompt(x)
    ensures var (pool, out) := ProcessAll(token, message, x, true);
      var n := FragmentCount(|message|);
      && (out == [] <==> !Covered(x, n))
      && (out == [message] <==> exists k: nat :: LastMissing(x, k, n) && !Covered(x[k..], n))
      && (out == [message] && pool == [] <==> LastMissing(x, |x|, n))
  {
    var n := FragmentCount(|message|);
    CountBounds(|message|);
    ExactlyOnce(token, message, x);
    PromptUncovered(x, n);
    forall k: nat ensures OnceAt(x, k, n) <==> LastMissing(x, k, n) && !Covered(x[k..], n) { PromptOnceAt(x, k, n); }
    forall k: nat | OnceAt(x, k, n) ensures WindowOf(x[k..]).None? <==> k == |x| { PromptEmpty(x[k..]); }
    assert x[|x|..] == [] && !HasArrived([], 0);
  }

  // ----- sender and receiver together -----

  /** A packet of the sender is received as the fragment that it carries. */
  lemma PacketIsFragment(pool: seq<Entry>, head: Bytes, message: Bytes, n: Byte, a: Arrival)
    requires PoolOk(pool) && |head| == HEAD_LEN && 0 < |message| && a.index < n && n == FragmentCount(|message|)
    ensures ProcessPacket(pool, Packets(head, message, n, n)[a.index], a.now, a.later, a.alloc)
         == Process(pool, head[1], message, a, KnownType(head[5]))
  {
    CountBounds(|message|);
    PacketAt(head, message, n, n, a.index);
    assert Packet(head, message, n, a.index)[HEAD_LEN..] == Chunk(message, a.index);
  }

  /** The pool and what was handed on, after packets of the sender, given by their places, have arrived. */
  function ProcessPackets(head: Bytes, message: Bytes, n: Byte, arrivals: seq<Arrival>): (seq<Entry>, seq<Bytes>)
    requires |head| == HEAD_LEN && Fitting(message, arrivals) && n == FragmentCount(|message|)
  {
    if arrivals == [] then ([], [])
    else
      var a := arrivals[|arrivals| - 1];
      var (pool, out) := ProcessPackets(head, message, n, arrivals[..|arrivals| - 1]);
      if !PoolOk(pool) then (pool, out)
      else
        var (p, m) := ProcessPacket(pool, Packets(head, message, n, n)[a.index], a.now, a.later, a.alloc);
        (p, Added(out, m))
  }

  lemma {:induction false} PacketsAreFragments(head: Bytes, message: Bytes, n: Byte, arrivals: seq<Arrival>)
    requires |head| == HEAD_LEN && Fitting(message, arrivals) && n == FragmentCount(|message|)
    ensures ProcessPackets(head, message, n, arrivals) == ProcessAll(head[1], message, arrivals, KnownType(head[5]))
  {
    if arrivals == [] {
    } else {
      var front, a := arrivals[..|arrivals| - 1], arrivals[|arrivals| - 1];
      PacketsAreFragments(head, message, n, front);
      var pool := ProcessPackets(head, message, n, front).0;
      if PoolOk(pool) { PacketIsFragment(pool, head, message, n, a); }
    }
  }

  /** From end to end: whatever packets of a message arrive, in whatever order, any number of times and at
      any time, all that the receiver hands on is that message, once for each time that they amount to it;
      and when they arrive within the timeout, it is handed on at all if and only if each of them arrived,
      and exactly once with nothing left behind if and only if the last to arrive was the last missing. */
  lemma EndToEnd(head: Bytes, message: Bytes, n: Byte, x: seq<Arrival>)
    requires |head| == HEAD_LEN && Fitting(message, x) && n == FragmentCount(|message|)
    ensures var (pool, out) := ProcessPackets(head, message, n, x);
      var known := KnownType(head[5]);
      && out == Copies(message, if known then Covers(x, n) else 0)
      && (known ==> (out == [message] <==> exists k: nat :: OnceAt(x, k, n)))
      && (known && Prompt(x) ==> (out != [] <==> Covered(x, n)))
      && (known && Prompt(x) ==> (out == [message] <==> exists k: nat :: LastMissing(x, k, n) && !Covered(x[k..], n)))
      && (known && Prompt(x) ==> (out == [message] && pool == [] <==> LastMissing(x, |x|, n)))
  {
    PacketsAreFragments(head, message, n, x);
    if KnownType(head[5]) {
      Delivers(head[1], message, x);
      ExactlyOnce(head[1], message, x);
      if Prompt(x) { PromptOnce(head[1], message, x); }
    } else {
      UnknownDelivers(head[1], message, x);
    }
  }

  // ----- packets that arrive again -----

  lemma {:induction false} EveryArrivalCovers(x: seq<Arrival>)
    requires Indexed(x, 1) && forall k :: 0 <= k < |x| ==> !x[k].alloc
    ensures Covers(x, 1) == |x| && Rest(x, 1) == []
  {
    if x == [] {
    } else {
      var front, a := x[..|x| - 1], x[|x| - 1];
      EveryArrivalCovers(front);
      assert Rest(front, 1) + [a] == [a];
      assert WindowOf([a]) == Note(WindowOf([a][..0]), a);
    }
  }

  /** A message of one fragment is handed on as often as its packet arrives. */
  lemma RepeatedPacketDelivers(head: Bytes, message: Bytes, x: seq<Arrival>)
    requires |head| == HEAD_LEN && KnownType(head[5]) && Fitting(message, x) && FragmentCount(|message|) == 1
    requires forall k :: 0 <= k < |x| ==> !x[k].alloc
    ensures ProcessPackets(head, message, 1, x) == ([], Copies(message, |x|))
  {
    EndToEnd(head, message, 1, x);
    EveryArrivalCovers(x);
    PacketsAreFragments(head, message, 1, x);
    Delivers(head[1], message, x);
  }

  lemma LoneFragment(a: Arrival, n: nat)
    requires a.index < n && 1 < n <= MAX_FRAGMENTS && !a.alloc
    ensures Indexed([a], MAX_FRAGMENTS) && Uncovered([a], n)
    ensures WindowOf([a]) == Some(Window(a.later, seq(MAX_FRAGMENTS, _ => false)[a.index := true]))
  {
    assert [a][..0] == [] && [a][..1] == [a];
    assert WindowOf([a]) == Note(WindowOf([a][..0]), a);
    assert !WindowOf([a]).value.mask[if a.index == 0 then 1 else 0];
  }

  lemma OnceMore(x: seq<Arrival>, a: Arrival, n: nat)
    requires 1 < n <= MAX_FRAGMENTS && Indexed(x, n) && FirstAt(x, |x|, n) && a.index < n && !a.alloc
    ensures Indexed(x + [a], MAX_FRAGMENTS) && Covers(x + [a], n) == 1 && Rest(x + [a], n) == [a]
  {
    var y, k := x + [a], |x|;
    assert y[..k] == x == x[..k] && y[..k - 1] == x[..k - 1] && y[k..] == [a];
    LoneFragment(a, n);
    assert OnceAt(y, k, n);
    OnceIs(y, k, n);
  }

  /** A packet of a longer message that arrives again after the message was complete opens an entry that
      has nothing but its fragment, and until that is too old every packet with another token is lost. */
  lemma LatePacketBlocks(head: Bytes, message: Bytes, n: Byte, x: seq<Arrival>, a: Arrival,
                         packet: Bytes, now: U64, later: U64, alloc: bool)
    requires |head| == HEAD_LEN && KnownType(head[5]) && Fitting(message, x) && n == FragmentCount(|message|) && 1 < n
    requires FirstAt(x, |x|, n) && a.index < n && !a.alloc
    ensures Fitting(message, x + [a])
    ensures var (pool, out) := ProcessPackets(head, message, n, x + [a]);
      && out == [message] && |pool| == 1 && Partial(message, pool[0])
      && pool[0].mask == seq(MAX_FRAGMENTS, _ => false)[a.index := true]
      && (|packet| > HEAD_LEN && packet[1] != head[1] && !TimedOut(pool[0], now) ==>
            ProcessPacket(pool, packet, now, later, alloc) == (pool, None))
  {
    OnceMore(x, a, n);
    LoneFragment(a, n);
    PacketsAreFragments(head, message, n, x + [a]);
    Delivers(head[1], message, x + [a]);
    CopiesIs(message, 1);
    var pool := ProcessPackets(head, message, n, x + [a]).0;
    if |packet| > HEAD_LEN && packet[1] != head[1] && !TimedOut(pool[0], now) {
      assert pool == [pool[0]];
      OtherTokenRefused(pool[0], packet[1], packet[2], packet[3], packet[HEAD_LEN..], now, later, alloc);
    }
  }
}
