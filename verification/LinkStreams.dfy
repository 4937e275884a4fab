/** Arbitrary packets, of any senders and whatever is in them: what they can do to the pool. */
module LinkStreams {
  import opened Common
  import opened SysClock
  import opened LinkLayer

  /** What holds of every entry: one slot for each fragment and a closing zero, bits for places that exist, a
      count of them, and at least one and at most a slot of data for each. */
  predicate Sound(e: Entry) {
    && 0 < e.pkgNum <= MAX_FRAGMENTS == |e.mask| && |e.buff| == SLOT * e.pkgNum + 1
    && (forall i :: e.pkgNum <= i < |e.mask| ==> !e.mask[i])
    && e.count == Ones(e.mask, MAX_FRAGMENTS) && e.count <= e.dataLen <= SLOT * e.count
  }

  predicate PoolSound(pool: seq<Entry>) {
    |pool| <= POOL_SIZE && forall k :: 0 <= k < |pool| ==> Sound(pool[k])
  }

  lemma CountBounded(e: Entry)
    requires Sound(e)
    ensures e.count <= e.pkgNum && e.dataLen < |e.buff|
  {
    OnesTail(e.mask, e.pkgNum, MAX_FRAGMENTS);
    OnesBounded(e.mask, e.pkgNum);
  }

  lemma FreshSound(token: Byte, pkgNum: nat, now: U64)
    requires 0 < pkgNum <= MAX_FRAGMENTS
    ensures Sound(Fresh(token, pkgNum, now))
  {
    OnesNone(Fresh(token, pkgNum, now).mask, MAX_FRAGMENTS);
  }

  lemma StoreSound(e: Entry, i: nat, data: Bytes)
    requires Sound(e) && i < MAX_FRAGMENTS && 0 < |data| <= SLOT
    ensures Sound(Store(e, i, data).0)
  {
    if !e.mask[i] && SLOT * i + |data| <= SLOT * e.pkgNum { OnesSet(e.mask, i, MAX_FRAGMENTS); }
  }

  /** In a sound pool a message leaves exactly when its count is full, its data are within its buffer, and the
      other checks of the merge never fail. */
  lemma MergeIs(pool: seq<Entry>, token: Byte)
    requires PoolSound(pool)
    ensures var k := Find(pool, token, 0);
      && (Merge(pool, token).1.Some? <==> k < |pool| && pool[k].count == pool[k].pkgNum)
      && (Merge(pool, token).1.Some? ==>
            && |Merge(pool, token).1.value| == pool[k].dataLen
            && pool[k].pkgNum <= pool[k].dataLen <= SLOT * pool[k].pkgNum)
      && PoolSound(Merge(pool, token).0)
  {
    var k := Find(pool, token, 0);
    if k < |pool| { CountBounded(pool[k]); }
  }

  /** A packet arrives: its bytes, the two readings of the clock and whether memory runs out. */
  datatype Arrival = Arrival(packet: Bytes, now: U64, later: U64, alloc: bool)

  function ProcessAll(arrivals: seq<Arrival>): seq<Entry> {
    if arrivals == [] then []
    else
      var pool, a := ProcessAll(arrivals[..|arrivals| - 1]), arrivals[|arrivals| - 1];
      if PoolOk(pool) then ProcessPacket(pool, a.packet, a.now, a.later, a.alloc).0 else pool
  }

  // ----- what arbitrary packets are put together to -----

  /** The fragments that an entry has, by place. */
  type Fragments = seq<Option<Bytes>>

  function Data(f: Option<Bytes>): Bytes {
    if f.Some? then f.value else []
  }

  predicate FragmentOk(f: Option<Bytes>) {
    f.Some? ==> 0 < |f.value| <= SLOT
  }

  predicate AllOk(fs: Fragments) {
    forall i :: 0 <= i < |fs| ==> FragmentOk(fs[i])
  }

  predicate Whole(fs: Fragments) {
    forall i :: 0 <= i < |fs| ==> fs[i].Some?
  }

  function Total(fs: Fragments, k: nat): nat
    requires k <= |fs|
  {
    if k == 0 then 0 else Total(fs, k - 1) + |Data(fs[k - 1])|
  }

  /** One fragment after the other. */
  function Joined(fs: Fragments, k: nat): Bytes
    requires k <= |fs|
  {
    if k == 0 then [] else Joined(fs, k - 1) + Data(fs[k - 1])
  }

  function Padded(f: Option<Bytes>): (r: Bytes)
    requires FragmentOk(f)
    ensures |r| == SLOT
  {
    Data(f) + Zeros(SLOT - |Data(f)|)
  }

  /** Each fragment in a slot of its own. */
  function Laid(fs: Fragments, k: nat): (r: Bytes)
    requires k <= |fs| && AllOk(fs)
    ensures |r| == SLOT * k
  {
    if k == 0 then [] else Laid(fs, k - 1) + Padded(fs[k - 1])
  }

  /** What the merge gives: as many bytes of the buffer as there are data. */
  function Merged(fs: Fragments): Bytes
    requires AllOk(fs)
  {
    TotalBound(fs, |fs|);
    Laid(fs, |fs|)[..Total(fs, |fs|)]
  }

  lemma {:induction false} TotalBound(fs: Fragments, k: nat)
    requires k <= |fs| && AllOk(fs)
    ensures Total(fs, k) <= SLOT * k
  {
    if k == 0 {
    } else {
      TotalBound(fs, k - 1);
    }
  }

  lemma {:induction false} TotalSet(fs: Fragments, i: nat, data: Bytes, k: nat)
    requires i < |fs| && k <= |fs| && fs[i].None?
    ensures Total(fs[i := Some(data)], k) == Total(fs, k) + if i < k then |data| else 0
  {
    if k == 0 {
    } else {
      TotalSet(fs, i, data, k - 1);
    }
  }

  lemma {:induction false} TotalNone(n: nat, k: nat)
    requires k <= n
    ensures Total(seq(n, _ => None), k) == 0
  {
    if k == 0 {
    } else {
      TotalNone(n, k - 1);
    }
  }

  /** The entry has the fragments, each in its slot and accounted for. */
  ghost predicate Holds(e: Entry, fs: Fragments) {
    && Sound(e) && |fs| == e.pkgNum && AllOk(fs)
    && e.dataLen == Total(fs, |fs|) && e.buff == Laid(fs, |fs|) + [0]
    && forall i :: 0 <= i < |fs| ==> (e.mask[i] <==> fs[i].Some?)
  }

  function Added(fs: Fragments, i: nat, data: Bytes): Fragments {
    if i < |fs| && fs[i].None? then fs[i := Some(data)] else fs
  }

  lemma {:induction false} LaidNone(n: nat, k: nat)
    requires k <= n
    ensures Laid(seq(n, _ => None), k) == Zeros(SLOT * k)
  {
    if k == 0 {
    } else {
      LaidNone(n, k - 1);
    }
  }

  lemma FreshHolds(token: Byte, n: nat, later: U64)
    requires 0 < n <= MAX_FRAGMENTS
    ensures Holds(Fresh(token, n, later), seq(n, _ => None))
  {
    FreshSound(token, n, later);
    TotalNone(n, n);
    LaidNone(n, n);
  }

  /** Bytes written over a part of a buffer. */
  function Spliced(b: Bytes, at: nat, data: Bytes): Bytes
    requires at + |data| <= |b|
  {
    b[..at] + data + b[at + |data|..]
  }

  lemma SpliceFront(a: Bytes, b: Bytes, at: nat, data: Bytes)
    requires at + |data| <= |a|
    ensures Spliced(a + b, at, data) == Spliced(a, at, data) + b
  {}

  lemma SpliceEnd(a: Bytes, data: Bytes)
    requires |data| <= SLOT
    ensures Spliced(a + Zeros(SLOT), |a|, data) == a + (data + Zeros(SLOT - |data|))
  {}

  lemma {:induction false} LaidBefore(fs: Fragments, i: nat, f: Option<Bytes>, k: nat)
    requires k <= i < |fs| && AllOk(fs) && FragmentOk(f)
    ensures Laid(fs[i := f], k) == Laid(fs, k)
  {
    if k == 0 {
    } else {
      LaidBefore(fs, i, f, k - 1);
    }
  }

  lemma {:induction false} LaidSet(fs: Fragments, i: nat, data: Bytes, k: nat)
    requires i < k <= |fs| && AllOk(fs) && fs[i].None? && 0 < |data| <= SLOT
    ensures Laid(fs[i := Some(data)], k) == Spliced(Laid(fs, k), SLOT * i, data)
  {
    if k == i + 1 {
      LaidBefore(fs, i, Some(data), i);
      assert Padded(fs[i]) == Zeros(SLOT);
      SpliceEnd(Laid(fs, i), data);
    } else {
      LaidSet(fs, i, data, k - 1);
      SpliceFront(Laid(fs, k - 1), Padded(fs[k - 1]), SLOT * i, data);
    }
  }

  /** A fragment goes to its slot if the entry has that place and not yet a fragment there. */
  lemma StoreHolds(e: Entry, fs: Fragments, i: nat, data: Bytes)
    requires Holds(e, fs) && i < MAX_FRAGMENTS && 0 < |data| <= SLOT
    ensures var (t, status) := Store(e, i, data);
      && (status.Stored? <==> i < |fs|) && Holds(t, Added(fs, i, data))
      && t.token == e.token && t.savedTime == e.savedTime
  {
    StoreSound(e, i, data);
    if i < |fs| && fs[i].None? {
      TotalSet(fs, i, data, |fs|);
      LaidSet(fs, i, data, |fs|);
      SpliceFront(Laid(fs, |fs|), [0], SLOT * i, data);
    }
  }

  /** The count is full exactly when every place has a fragment, and then this is handed on. */
  lemma MergeHolds(e: Entry, fs: Fragments)
    requires Holds(e, fs)
    ensures Merge([e], e.token) == if Whole(fs) then ([], Some(Merged(fs))) else ([e], None)
  {
    WholeIs(e, fs);
    CountBounded(e);
    TotalBound(fs, |fs|);
    assert e.buff[..e.dataLen] == Laid(fs, |fs|)[..e.dataLen];
    assert [e][..0] + [e][1..] == [];
  }

  lemma WholeIs(e: Entry, fs: Fragments)
    requires Holds(e, fs)
    ensures e.count == e.pkgNum <==> Whole(fs)
  {
    OnesTail(e.mask, e.pkgNum, MAX_FRAGMENTS);
    OnesBounded(e.mask, e.pkgNum);
    if Whole(fs) { OnesAll(e.mask, e.pkgNum); }
  }

  // ----- when that is one fragment after the other -----

  /** No fragment but that of the last place is shorter than a slot. */
  predicate TailOnly(fs: Fragments) {
    forall i :: 0 <= i < |fs| - 1 && fs[i].Some? ==> |fs[i].value| == SLOT
  }

  predicate NoZero(b: Bytes) {
    forall k :: 0 <= k < |b| ==> b[k] != 0
  }

  predicate NoZeros(fs: Fragments) {
    forall i :: 0 <= i < |fs| ==> NoZero(Data(fs[i]))
  }

  /** The first k places have full slots. */
  predicate FullUpTo(fs: Fragments, k: nat) {
    k <= |fs| && forall i :: 0 <= i < k ==> |Data(fs[i])| == SLOT
  }

  lemma {:induction false} FullJoined(fs: Fragments, k: nat)
    requires AllOk(fs) && FullUpTo(fs, k)
    ensures Laid(fs, k) == Joined(fs, k) && Total(fs, k) == SLOT * k
  {
    if k == 0 {
    } else {
      FullJoined(fs, k - 1);
      assert Padded(fs[k - 1]) == Data(fs[k - 1]);
    }
  }

  lemma MergedWhole(fs: Fragments)
    requires AllOk(fs) && Whole(fs) && TailOnly(fs) && fs != []
    ensures Merged(fs) == Joined(fs, |fs|)
  {
    var n := |fs| - 1;
    FullJoined(fs, n);
    CutPadding(Laid(fs, n), Data(fs[n]), Zeros(SLOT - |Data(fs[n])|));
  }

  lemma CutPadding(a: Bytes, b: Bytes, c: Bytes)
    ensures (a + (b + c))[..|a| + |b|] == a + b
  {}

  lemma {:induction false} JoinedNoZero(fs: Fragments, k: nat)
    requires k <= |fs| && NoZeros(fs)
    ensures NoZero(Joined(fs, k))
  {
    if k == 0 {
    } else {
      JoinedNoZero(fs, k - 1);
      assert NoZero(Data(fs[k - 1]));
    }
  }

  lemma {:induction false} LaidPrefix(fs: Fragments, k: nat, n: nat)
    requires k <= n <= |fs| && AllOk(fs)
    ensures Laid(fs, k) <= Laid(fs, n)
  {
    if k == n {
    } else {
      LaidPrefix(fs, k, n - 1);
    }
  }

  lemma {:induction false} TotalGrows(fs: Fragments, k: nat, n: nat)
    requires k <= n <= |fs|
    ensures Total(fs, k) <= Total(fs, n)
  {
    if k == n {
    } else {
      TotalGrows(fs, k, n - 1);
    }
  }

  lemma {:induction false} FirstShort(fs: Fragments, k: nat) returns (i: nat)
    requires AllOk(fs) && Whole(fs) && k < |fs| && !FullUpTo(fs, k)
    ensures i < k && FullUpTo(fs, i) && |Data(fs[i])| < SLOT
  {
    if FullUpTo(fs, k - 1) {
      i := k - 1;
    } else {
      i := FirstShort(fs, k - 1);
    }
  }

  /** A gap before the last fragment shows as a zero byte. */
  lemma MergedGap(fs: Fragments)
    requires AllOk(fs) && Whole(fs) && !TailOnly(fs)
    ensures !NoZero(Merged(fs))
  {
    var n := |fs|;
    var i := FirstShort(fs, n - 1);
    var at := SLOT * i + |Data(fs[i])|;
    FullJoined(fs, i);
    LaidPrefix(fs, i + 1, n);
    TotalGrows(fs, i + 2, n);
    assert Total(fs, i + 2) == Total(fs, i) + |Data(fs[i])| + |Data(fs[i + 1])|;
    TotalBound(fs, n);
    assert Laid(fs, i + 1)[at] == Padded(fs[i])[|Data(fs[i])|] == 0;
    assert Merged(fs)[at] == 0;
  }

  /** What is handed on is one fragment after the other if no fragment but the last is short; and, of fragments
      without zero bytes, only then. */
  lemma MergedExact(fs: Fragments)
    requires AllOk(fs) && Whole(fs) && fs != []
    ensures TailOnly(fs) ==> Merged(fs) == Joined(fs, |fs|)
    ensures NoZeros(fs) ==> (Merged(fs) == Joined(fs, |fs|) <==> TailOnly(fs))
  {
    if TailOnly(fs) {
      MergedWhole(fs);
    } else {
      MergedGap(fs);
      if NoZeros(fs) { JoinedNoZero(fs, |fs|); }
    }
  }

  // ----- streams -----

  /** A message being put together: since when, and from which fragments. */
  datatype Build = Build(token: Byte, since: U64, fs: Fragments)

  predicate Stale(b: Build, now: U64) {
    DeltaTime(ToU32(now), ToU32(b.since)) >= PKG_TIMEOUT
  }

  /** What a well-formed packet finds: the message of its token, a new one, or no place. */
  function Found(w: Option<Build>, a: Arrival): Option<Build>
    requires |a.packet| > HEAD_LEN
  {
    if w.Some? && !Stale(w.value, a.now) then (if w.value.token == a.packet[1] then w else None)
    else if a.alloc then None
    else Some(Build(a.packet[1], a.later, seq(a.packet[2], _ => None)))
  }

  predicate WellFormed(packet: Bytes) {
    |packet| > HEAD_LEN && CheckFragment(packet[2], packet[3], packet[HEAD_LEN..]).Stored?
  }

  function WithFragment(b: Build, packet: Bytes): Build
    requires |packet| > HEAD_LEN
  {
    b.(fs := Added(b.fs, packet[3], packet[HEAD_LEN..]))
  }

  /** The packet is stored and completes its message. */
  predicate Completes(w: Option<Build>, a: Arrival) {
    && WellFormed(a.packet) && Found(w, a).Some? && KnownType(a.packet[5])
    && a.packet[3] < |Found(w, a).value.fs| && Whole(WithFragment(Found(w, a).value, a.packet).fs)
  }

  /** What one packet, whatever is in it, does to the message being put together. */
  function Arrive(w: Option<Build>, a: Arrival): Option<Build> {
    if !WellFormed(a.packet) then w
    else if Found(w, a).None? then (if w.Some? && !Stale(w.value, a.now) then w else None)
    else if Completes(w, a) then None
    else Some(WithFragment(Found(w, a).value, a.packet))
  }

  predicate BuildOk(w: Option<Build>) {
    w.Some? ==> AllOk(w.value.fs)
  }

  lemma ArriveOk(w: Option<Build>, a: Arrival)
    requires BuildOk(w)
    ensures BuildOk(Arrive(w, a)) && (Completes(w, a) ==> AllOk(WithFragment(Found(w, a).value, a.packet).fs))
  {}

  /** The message that a packet hands on, if any. */
  function HandsOn(w: Option<Build>, a: Arrival): Option<Bytes>
    requires BuildOk(w)
  {
    ArriveOk(w, a);
    if Completes(w, a) then Some(Merged(WithFragment(Found(w, a).value, a.packet).fs)) else None
  }

  /** The pool is that of the message being put together. */
  ghost predicate Mirrors(pool: seq<Entry>, w: Option<Build>) {
    && (w.None? ==> pool == [])
    && (w.Some? ==> |pool| == 1 && pool[0].token == w.value.token && pool[0].savedTime == w.value.since)
    && (w.Some? ==> Holds(pool[0], w.value.fs))
  }

  lemma InsertMirrors(pool: seq<Entry>, w: Option<Build>, a: Arrival)
    requires PoolOk(pool) && Mirrors(pool, w) && WellFormed(a.packet)
    ensures var (p, status) :=
              Insert(pool, a.packet[1], a.packet[2], a.packet[3], a.packet[HEAD_LEN..], a.now, a.later, a.alloc);
      var b := Found(w, a);
      && (status.Stored? <==> b.Some? && a.packet[3] < |b.value.fs|)
      && (b.Some? ==> Mirrors(p, Some(WithFragment(b.value, a.packet))))
      && (b.None? ==> Mirrors(p, if w.Some? && !Stale(w.value, a.now) then w else None))
  {
    var token, n, i, data := a.packet[1], a.packet[2], a.packet[3], a.packet[HEAD_LEN..];
    if w.Some? && !Stale(w.value, a.now) {
      assert ClearTimedOut(pool, a.now) == pool;
      StoreHolds(pool[0], w.value.fs, i, data);
    } else {
      assert ClearTimedOut(pool, a.now) == [];
      FreshHolds(token, n, a.later);
      StoreHolds(Fresh(token, n, a.later), seq(n, _ => None), i, data);
    }
  }

  lemma StoredMirrors(p: seq<Entry>, b: Build)
    requires Mirrors(p, Some(b))
    ensures Merge(p, b.token).1 == (if Whole(b.fs) then Some(Merged(b.fs)) else None)
    ensures Mirrors(Merge(p, b.token).0, if Whole(b.fs) then None else Some(b))
  {
    assert p == [p[0]];
    MergeHolds(p[0], b.fs);
  }

  lemma MirrorsOk(pool: seq<Entry>, w: Option<Build>)
    requires Mirrors(pool, w)
    ensures PoolOk(pool) && PoolSound(pool) && BuildOk(w)
  {}

  lemma MalformedMirrors(pool: seq<Entry>, a: Arrival)
    requires PoolOk(pool) && !WellFormed(a.packet)
    ensures ProcessPacket(pool, a.packet, a.now, a.later, a.alloc) == (pool, None)
  {}

  lemma FoundMirrors(p: seq<Entry>, status: RecvStatus, w: Option<Build>, a: Arrival)
    requires BuildOk(w) && WellFormed(a.packet) && Found(w, a).Some?
    requires Mirrors(p, Some(WithFragment(Found(w, a).value, a.packet)))
    requires status.Stored? <==> a.packet[3] < |Found(w, a).value.fs|
    ensures var (q, m) := if !status.Stored? || !KnownType(a.packet[5]) then (p, None) else Merge(p, a.packet[1]);
      Mirrors(q, Arrive(w, a)) && m == HandsOn(w, a)
  {
    StoredMirrors(p, WithFragment(Found(w, a).value, a.packet));
  }

  /** Every packet, whatever is in it and whoever sent it, does to the pool and hands on what it does to the
      message being put together. */
  lemma ArriveMirrors(pool: seq<Entry>, w: Option<Build>, a: Arrival)
    requires PoolOk(pool) && Mirrors(pool, w) && BuildOk(w)
    ensures var (p, m) := ProcessPacket(pool, a.packet, a.now, a.later, a.alloc);
      Mirrors(p, Arrive(w, a)) && m == HandsOn(w, a)
  {
    if !WellFormed(a.packet) {
      MalformedMirrors(pool, a);
    } else {
      InsertMirrors(pool, w, a);
      var (p, status) :=
        Insert(pool, a.packet[1], a.packet[2], a.packet[3], a.packet[HEAD_LEN..], a.now, a.later, a.alloc);
      if Found(w, a).Some? { FoundMirrors(p, status, w, a); }
    }
  }

  function ArriveAll(arrivals: seq<Arrival>): Option<Build> {
    if arrivals == [] then None else Arrive(ArriveAll(arrivals[..|arrivals| - 1]), arrivals[|arrivals| - 1])
  }

  /** After every stream of packets, malformed ones and mixtures of messages included, the pool is sound and is
      that of the message being put together. */
  lemma {:induction false} StreamMirrors(arrivals: seq<Arrival>)
    ensures var pool, w := ProcessAll(arrivals), ArriveAll(arrivals);
      PoolOk(pool) && PoolSound(pool) && BuildOk(w) && Mirrors(pool, w)
  {
    if arrivals == [] {
    } else {
      var front, a := arrivals[..|arrivals| - 1], arrivals[|arrivals| - 1];
      StreamMirrors(front);
      ArriveMirrors(ProcessAll(front), ArriveAll(front), a);
      MirrorsOk(ProcessAll(arrivals), ArriveAll(arrivals));
    }
  }

  // ----- packets that do not agree -----

  /** The packet brings a fragment shorter than a slot for a place that is not the last of the message being
      put together and has none yet: its number of fragments is another than that of the first packet. */
  predicate ShortInside(w: Option<Build>, a: Arrival) {
    && WellFormed(a.packet) && Found(w, a).Some?
    && var fs, i := Found(w, a).value.fs, a.packet[3];
       i + 1 < |fs| && fs[i].None? && |a.packet[HEAD_LEN..]| < SLOT
  }

  predicate Tidy(w: Option<Build>) {
    w.Some? ==> TailOnly(w.value.fs)
  }

  /** Packets that agree with the first on the number of fragments bring none such. */
  lemma AgreeingIsTidy(w: Option<Build>, a: Arrival)
    requires WellFormed(a.packet) && Found(w, a).Some? && |Found(w, a).value.fs| == a.packet[2]
    ensures !ShortInside(w, a)
  {}

  lemma TidyStep(w: Option<Build>, a: Arrival)
    requires Tidy(w) && WellFormed(a.packet) && Found(w, a).Some?
    ensures TailOnly(WithFragment(Found(w, a).value, a.packet).fs) <==> !ShortInside(w, a)
  {
    var b := Found(w, a).value;
    var i := a.packet[3];
    assert TailOnly(b.fs);
    if ShortInside(w, a) {
      assert WithFragment(b, a.packet).fs[i].Some?;
    }
  }

  /** What a packet hands on, where all before it were tidy, is the fragments one after the other if it is tidy
      itself; and, of fragments without zero bytes, only then. */
  lemma HandsOnExact(w: Option<Build>, a: Arrival)
    requires BuildOk(w) && Tidy(w) && Completes(w, a)
    ensures var fs := WithFragment(Found(w, a).value, a.packet).fs;
      && (!ShortInside(w, a) ==> HandsOn(w, a) == Some(Joined(fs, |fs|)))
      && (NoZeros(fs) ==> (HandsOn(w, a) == Some(Joined(fs, |fs|)) <==> !ShortInside(w, a)))
  {
    ArriveOk(w, a);
    TidyStep(w, a);
    MergedExact(WithFragment(Found(w, a).value, a.packet).fs);
  }

  /** No packet of the stream brings a short fragment inside. */
  predicate TidyAll(arrivals: seq<Arrival>) {
    arrivals == []
    || var front, a := arrivals[..|arrivals| - 1], arrivals[|arrivals| - 1];
       TidyAll(front) && !ShortInside(ArriveAll(front), a)
  }

  lemma {:induction false} TidyStream(arrivals: seq<Arrival>)
    requires TidyAll(arrivals)
    ensures Tidy(ArriveAll(arrivals))
  {
    if arrivals == [] {
    } else {
      var front, a := arrivals[..|arrivals| - 1], arrivals[|arrivals| - 1];
      TidyStream(front);
      if WellFormed(a.packet) && Found(ArriveAll(front), a).Some? { TidyStep(ArriveAll(front), a); }
    }
  }

  /** The packet carries that fragment of a message with that token. */
  predicate Carries(a: Arrival, token: Byte, i: nat, data: Bytes) {
    |a.packet| > HEAD_LEN && a.packet[1] == token && a.packet[3] == i && a.packet[HEAD_LEN..] == data
  }

  ghost predicate Carried(arrivals: seq<Arrival>, token: Byte, i: nat, data: Bytes) {
    exists k :: 0 <= k < |arrivals| && Carries(arrivals[k], token, i, data)
  }

  ghost predicate AllCarried(arrivals: seq<Arrival>, b: Build) {
    forall i :: 0 <= i < |b.fs| && b.fs[i].Some? ==> Carried(arrivals, b.token, i, b.fs[i].value)
  }

  lemma CarriedMore(front: seq<Arrival>, a: Arrival, b: Build)
    requires AllCarried(front, b)
    ensures AllCarried(front + [a], b)
  {
    var all := front + [a];
    forall i | 0 <= i < |b.fs| && b.fs[i].Some? ensures Carried(all, b.token, i, b.fs[i].value) {
      var k :| 0 <= k < |front| && Carries(front[k], b.token, i, b.fs[i].value);
      assert Carries(all[k], b.token, i, b.fs[i].value);
    }
  }

  lemma StoredCarried(front: seq<Arrival>, w: Option<Build>, a: Arrival)
    requires (w.Some? ==> AllCarried(front, w.value)) && WellFormed(a.packet) && Found(w, a).Some?
    ensures AllCarried(front + [a], WithFragment(Found(w, a).value, a.packet))
  {
    var b, all := Found(w, a).value, front + [a];
    assert AllCarried(front, b);
    CarriedMore(front, a, b);
    assert Carries(all[|front|], b.token, a.packet[3], a.packet[HEAD_LEN..]);
  }

  /** Every fragment of the message being put together was carried by a packet of the stream with its token. */
  lemma {:induction false} StreamCarried(arrivals: seq<Arrival>)
    ensures ArriveAll(arrivals).Some? ==> AllCarried(arrivals, ArriveAll(arrivals).value)
  {
    if arrivals == [] {
    } else {
      var front, a := arrivals[..|arrivals| - 1], arrivals[|arrivals| - 1];
      var w := ArriveAll(front);
      StreamCarried(front);
      assert front + [a] == arrivals;
      if WellFormed(a.packet) && Found(w, a).Some? {
        StoredCarried(front, w, a);
      } else if w.Some? {
        CarriedMore(front, a, w.value);
      }
    }
  }

  /** Whatever packets arrive, as long as none brings a short fragment inside: a message that is handed on is
      fragments one after the other, each carried by a packet of the stream with the token of the message. */
  lemma StreamHandsOn(arrivals: seq<Arrival>, a: Arrival)
    requires TidyAll(arrivals) && !ShortInside(ArriveAll(arrivals), a)
    requires PoolOk(ProcessAll(arrivals))
    ensures var m := ProcessPacket(ProcessAll(arrivals), a.packet, a.now, a.later, a.alloc).1;
      && (m.Some? <==> Completes(ArriveAll(arrivals), a))
      && (m.Some? ==>
            var b := WithFragment(Found(ArriveAll(arrivals), a).value, a.packet);
            m.value == Joined(b.fs, |b.fs|) && Whole(b.fs) && AllCarried(arrivals + [a], b))
  {
    var w := ArriveAll(arrivals);
    StreamMirrors(arrivals);
    ArriveMirrors(ProcessAll(arrivals), w, a);
    if Completes(w, a) {
      TidyStream(arrivals);
      HandsOnExact(w, a);
      StreamCarried(arrivals);
      StoredCarried(arrivals, w, a);
    }
  }

  // ----- a message that nobody sent -----

  function Head(token: Byte, pkgNum: Byte, i: Byte): Bytes {
    [0, token, pkgNum, i, 0, 0, 0]
  }

  /** The entry after the second half of a message of two fragments. */
  function HalfEntry(token: Byte, half: Bytes, later: U64): Entry
    requires |half| == SLOT
  {
    var e := Fresh(token, 2, later);
    e.(buff := Zeros(SLOT) + half + [0], dataLen := SLOT, mask := e.mask[1 := true], count := 1)
  }

  lemma HalfArrives(token: Byte, half: Bytes, now: U64, later: U64)
    requires |half| == SLOT
    ensures ProcessPacket([], Head(token, 2, 1) + half, now, later, false) == ([HalfEntry(token, half, later)], None)
  {
    var packet, z := Head(token, 2, 1) + half, Zeros(2 * SLOT + 1);
    assert packet[HEAD_LEN..] == half;
    assert z[..SLOT] + half + z[2 * SLOT..] == Zeros(SLOT) + half + [0];
    var f, e := Fresh(token, 2, later), HalfEntry(token, half, later);
    assert Store(f, 1, half) == (e, Stored);
    assert ([] + [f])[0] == f && ([] + [f])[0 := e] == [e];
  }

  lemma ByteArrives(token: Byte, half: Bytes, x: Byte, later: U64, next: U64)
    requires |half| == SLOT && !TimedOut(HalfEntry(token, half, later), next)
    ensures ProcessPacket([HalfEntry(token, half, later)], Head(token, 1, 0) + [x], next, next, false)
         == ([], Some([x] + Zeros(SLOT - 1) + [half[0]]))
  {
    var packet, e := Head(token, 1, 0) + [x], HalfEntry(token, half, later);
    var t := Store(e, 0, [x]).0;
    assert packet[HEAD_LEN..] == [x];
    assert ClearTimedOut([e], next) == [e];
    assert t.buff == [x] + e.buff[1..];
    assert t.buff[..SLOT + 1] == [x] + Zeros(SLOT - 1) + [half[0]];
    assert [e][0 := t] == [t];
    assert [t][..0] + [t][1..] == [];
  }

  /** The second half of a message of two fragments, and then a message of one byte under the same token, are
      put together: the byte, a slot of zeros less one and the first byte of the half are handed on. */
  lemma MixedMessage(token: Byte, half: Bytes, x: Byte, now: U64, later: U64, next: U64)
    requires |half| == SLOT && !TimedOut(HalfEntry(token, half, later), next)
    ensures var (pool, first) := ProcessPacket([], Head(token, 2, 1) + half, now, later, false);
      && first == None && PoolOk(pool)
      && ProcessPacket(pool, Head(token, 1, 0) + [x], next, next, false)
         == ([], Some([x] + Zeros(SLOT - 1) + [half[0]]))
  {
    HalfArrives(token, half, now, later);
    ByteArrives(token, half, x, later, next);
  }
}
