/** The link layer of the BLE channel: a message is cut into numbered fragments (linklayer_send.c), and
    fragments that arrive in any order are put together again (linklayer_recv.c). */
module LinkLayer {
  import opened Common
  import opened SysClock

  const HEAD_LEN := 7
  const SLOT := 153              // data bytes of a fragment
  const MAX_FRAGMENTS := 16
  const POOL_SIZE := 1
  const PKG_TIMEOUT := 10000

  // ----- cutting -----

  function FragmentCount(len: nat): nat {
    len / SLOT + if len % SLOT == 0 then 0 else 1
  }

  lemma CountBounds(len: nat)
    requires 0 < len
    ensures var n := FragmentCount(len); 0 < n && SLOT * (n - 1) < len <= SLOT * n
  {}

  function ChunkLen(len: nat, i: nat): nat
    requires SLOT * i < len
  {
    Min(SLOT, len - SLOT * i)
  }

  function Chunk(message: Bytes, i: nat): (r: Bytes)
    requires SLOT * i < |message|
    ensures |r| == ChunkLen(|message|, i)
  {
    message[SLOT * i..SLOT * i + ChunkLen(|message|, i)]
  }

  /** The i-th packet: the head of the message with the number of fragments and the fragment's place in
      bytes 2 and 3, and the fragment. */
  function Packet(head: Bytes, message: Bytes, n: Byte, i: Byte): Bytes
    requires |head| == HEAD_LEN && SLOT * i < |message|
  {
    head[2 := n][3 := i] + Chunk(message, i)
  }

  function Packets(head: Bytes, message: Bytes, n: Byte, k: nat): (r: seq<Bytes>)
    requires |head| == HEAD_LEN && k <= n && 0 < |message| && n == FragmentCount(|message|)
    ensures |r| == k
  {
    CountBounds(|message|);
    if k == 0 then [] else Packets(head, message, n, k - 1) + [Packet(head, message, n, k - 1)]
  }

  datatype SendStatus = Sent | BadParam | TooMany | LinkError

  /** LinkLayerSendBtPkg: link says of each packet in turn whether the radio takes it. */
  method SendBtPkg(buff: Bytes, maxPkg: Byte, link: seq<bool>) returns (sent: seq<Bytes>, status: SendStatus)
    requires |link| == 256
    ensures status.BadParam? <==> |buff| <= HEAD_LEN
    ensures status.TooMany? <==> |buff| > HEAD_LEN && FragmentCount(|buff| - HEAD_LEN) > maxPkg
    ensures status.BadParam? || status.TooMany? ==> sent == []
    ensures status.Sent? || status.LinkError? ==>
      var message, n := buff[HEAD_LEN..], FragmentCount(|buff| - HEAD_LEN);
      && |sent| <= n && sent == Packets(buff[..HEAD_LEN], message, n, |sent|)
      && (status.Sent? ==> |sent| == n)
      && (status.LinkError? ==> 0 < |sent| && !link[|sent| - 1])
  {
    if |buff| <= HEAD_LEN {
      return [], BadParam;
    }
    var total := |buff| - HEAD_LEN;
    var n := FragmentCount(total);
    CountBounds(total);
    if n > maxPkg as int {
      return [], TooMany;
    }
    ghost var message := buff[HEAD_LEN..];
    var cur, left := HEAD_LEN, total;
    sent := [];
    var i := 0;
    while i < n
      invariant 0 <= i <= n && |sent| == i && sent == Packets(buff[..HEAD_LEN], message, n, i)
      invariant i < n ==> cur == HEAD_LEN + SLOT * i && left == total - SLOT * i
    {
      var len := Min(SLOT, left);
      var packet := buff[..HEAD_LEN][2 := n][3 := i] + buff[cur..cur + len];
      assert buff[cur..cur + len] == Chunk(message, i);
      sent := sent + [packet];
      cur, left := cur + len, left - len;
      if !link[i] {
        return sent, LinkError;
      }
      i := i + 1;
    }
    status := Sent;
  }

  // ----- putting together -----

  /** A message being put together: the buffer has one slot for each fragment and a closing zero, and
      the mask says which fragments have arrived. */
  datatype Entry = Entry(
    token: Byte, pkgNum: nat, savedTime: U64, buff: Bytes, dataLen: nat, mask: seq<bool>, count: nat)

  datatype RecvStatus = Stored | ParamInvalid | BadNumber | BadLength | PoolFull | NoMemory

  function Fresh(token: Byte, pkgNum: nat, now: U64): Entry {
    Entry(token, pkgNum, now, Zeros(SLOT * pkgNum + 1), 0, seq(MAX_FRAGMENTS, _ => false), 0)
  }

  /** The part of LinkLayerRecvPkgInsert that fills a slot. The buffer is never too small for the slots of its
      entry (LinkStreams). */
  function Store(e: Entry, i: nat, data: Bytes): (Entry, RecvStatus)
    requires i < |e.mask|
  {
    if e.mask[i] then (e, Stored)
    else if SLOT * i + |data| > SLOT * e.pkgNum || |e.buff| < SLOT * e.pkgNum then (e, BadLength)
    else
      (e.(buff := e.buff[..SLOT * i] + data + e.buff[SLOT * i + |data|..], dataLen := e.dataLen + |data|,
          mask := e.mask[i := true], count := e.count + 1), Stored)
  }

  predicate TimedOut(e: Entry, now: U64) {
    DeltaTime(ToU32(now), ToU32(e.savedTime)) >= PKG_TIMEOUT
  }

  function ClearTimedOut(pool: seq<Entry>, now: U64): seq<Entry> {
    if pool == [] then []
    else if TimedOut(pool[0], now) then ClearTimedOut(pool[1..], now)
    else [pool[0]] + ClearTimedOut(pool[1..], now)
  }

  /** The place of the entry of a token, or the end of the pool. */
  function Find(pool: seq<Entry>, token: Byte, i: nat): (r: nat)
    requires i <= |pool|
    ensures i <= r <= |pool| && (r < |pool| ==> pool[r].token == token)
    ensures forall k :: i <= k < r ==> pool[k].token != token
    decreases |pool| - i
  {
    if i == |pool| || pool[i].token == token then i else Find(pool, token, i + 1)
  }

  function CheckFragment(pkgNum: nat, i: nat, data: Bytes): RecvStatus {
    if data == [] then ParamInvalid
    else if pkgNum == 0 || pkgNum > MAX_FRAGMENTS || i >= pkgNum then BadNumber
    else if |data| > SLOT || (|data| != SLOT && i + 1 != pkgNum) then BadLength
    else Stored
  }

  predicate EntryOk(e: Entry) {
    |e.mask| == MAX_FRAGMENTS
  }

  predicate PoolOk(pool: seq<Entry>) {
    forall k :: 0 <= k < |pool| ==> EntryOk(pool[k])
  }

  lemma {:induction false} ClearedOk(pool: seq<Entry>, now: U64)
    requires PoolOk(pool)
    ensures PoolOk(ClearTimedOut(pool, now))
  {
    if pool == [] {
    } else {
      ClearedOk(pool[1..], now);
    }
  }

  /** LinkLayerRecvPkgInsert; now and later are the two readings of the clock. */
  function Insert(pool: seq<Entry>, token: Byte, pkgNum: nat, i: nat, data: Bytes, now: U64, later: U64, alloc: bool)
    : (seq<Entry>, RecvStatus)
    requires PoolOk(pool)
  {
    var check := CheckFragment(pkgNum, i, data);
    if !check.Stored? then (pool, check)
    else
      ClearedOk(pool, now);
      var p := ClearTimedOut(pool, now);
      var k := Find(p, token, 0);
      if k == |p| && |p| >= POOL_SIZE then (p, PoolFull)
      else if k == |p| && alloc then (p, NoMemory)
      else
        var q := if k == |p| then p + [Fresh(token, pkgNum, later)] else p;
        var (e, status) := Store(q[k], i, data);
        (q[k := e], status)
  }

  /** LinkLayerRecvMergePkgs: the message, if all its fragments are there, and the pool without it. The data
      of an entry of the pool never exceed its buffer (LinkStreams). */
  function Merge(pool: seq<Entry>, token: Byte): (seq<Entry>, Option<Bytes>) {
    var k := Find(pool, token, 0);
    if k == |pool| || pool[k].count != pool[k].pkgNum || pool[k].dataLen == 0 || pool[k].dataLen > |pool[k].buff|
    then (pool, None)
    else (pool[..k] + pool[k + 1..], Some(pool[k].buff[..pool[k].dataLen]))
  }

  // ----- a message being put together -----

  function Ones(mask: seq<bool>, k: nat): nat
    requires k <= |mask|
  {
    if k == 0 then 0 else Ones(mask, k - 1) + if mask[k - 1] then 1 else 0
  }

  /** The data bytes of the fragments below k that have arrived. */
  function Got(mask: seq<bool>, len: nat, k: nat): nat
    requires 0 < len && k <= FragmentCount(len) && k <= |mask|
  {
    CountBounds(len);
    if k == 0 then 0 else Got(mask, len, k - 1) + if mask[k - 1] then ChunkLen(len, k - 1) else 0
  }

  /** The slot of a fragment has the fragment. */
  ghost predicate SlotIs(buff: Bytes, message: Bytes, i: nat) {
    && SLOT * i < |message| <= |buff|
    && forall k :: SLOT * i <= k < SLOT * i + ChunkLen(|message|, i) ==> buff[k] == message[k]
  }

  /** What has arrived of a message is in its place and accounted for. */
  ghost predicate Partial(message: Bytes, e: Entry) {
    var n := FragmentCount(|message|);
    && 0 < |message| && n <= MAX_FRAGMENTS == |e.mask|
    && e.pkgNum == n && |e.buff| == SLOT * n + 1
    && (forall i :: 0 <= i < |e.mask| && e.mask[i] ==> i < n && SlotIs(e.buff, message, i))
    && e.count == Ones(e.mask, MAX_FRAGMENTS)
    && e.dataLen == Got(e.mask, |message|, n)
  }

  lemma {:induction false} OnesNone(mask: seq<bool>, k: nat)
    requires k <= |mask| && forall i :: 0 <= i < |mask| ==> !mask[i]
    ensures Ones(mask, k) == 0
  {
    if k == 0 {
    } else {
      OnesNone(mask, k - 1);
    }
  }

  lemma {:induction false} GotNone(mask: seq<bool>, len: nat, k: nat)
    requires 0 < len && k <= FragmentCount(len) && k <= |mask| && forall i :: 0 <= i < |mask| ==> !mask[i]
    ensures Got(mask, len, k) == 0
  {
    if k == 0 {
    } else {
      GotNone(mask, len, k - 1);
    }
  }

  lemma {:induction false} OnesSet(mask: seq<bool>, i: nat, k: nat)
    requires i < |mask| && k <= |mask| && !mask[i]
    ensures Ones(mask[i := true], k) == Ones(mask, k) + if i < k then 1 else 0
  {
    if k == 0 {
    } else {
      OnesSet(mask, i, k - 1);
    }
  }

  lemma {:induction false} GotSet(mask: seq<bool>, len: nat, i: nat, k: nat)
    requires 0 < len && k <= FragmentCount(len) && k <= |mask| && i < |mask| && !mask[i] && SLOT * i < len
    ensures Got(mask[i := true], len, k) == Got(mask, len, k) + if i < k then ChunkLen(len, i) else 0
  {
    CountBounds(len);
    if k == 0 {
    } else {
      GotSet(mask, len, i, k - 1);
    }
  }

  lemma FreshPartial(message: Bytes, token: Byte, now: U64)
    requires 0 < |message| && FragmentCount(|message|) <= MAX_FRAGMENTS
    ensures Partial(message, Fresh(token, FragmentCount(|message|), now))
  {
    var e := Fresh(token, FragmentCount(|message|), now);
    OnesNone(e.mask, MAX_FRAGMENTS);
    GotNone(e.mask, |message|, FragmentCount(|message|));
  }

  /** A fragment of the message is filled in, or was there already. */
  lemma StoreKeeps(message: Bytes, e: Entry, i: nat)
    requires Partial(message, e) && i < FragmentCount(|message|) && SLOT * i < |message|
    ensures var (t, status) := Store(e, i, Chunk(message, i));
      && status.Stored? && Partial(message, t) && t.mask == e.mask[i := true]
      && t.token == e.token && t.savedTime == e.savedTime
  {
    CountBounds(|message|);
    if !e.mask[i] {
      OnesSet(e.mask, i, MAX_FRAGMENTS);
      GotSet(e.mask, |message|, i, FragmentCount(|message|));
      var t := Store(e, i, Chunk(message, i)).0;
      forall j | 0 <= j < |t.mask| && t.mask[j] ensures j < FragmentCount(|message|) && SlotIs(t.buff, message, j) {
        SlotsApart(e.buff, message, i, j);
      }
    } else {
      assert e.mask[i := true] == e.mask;
    }
  }

  lemma SlotsApart(buff: Bytes, message: Bytes, i: nat, j: nat)
    requires SLOT * i < |message| <= |buff| && SLOT * i + ChunkLen(|message|, i) <= |buff|
    requires j == i || SlotIs(buff, message, j)
    ensures SlotIs(buff[..SLOT * i] + Chunk(message, i) + buff[SLOT * i + ChunkLen(|message|, i)..], message, j)
  {}

  // ----- completion -----

  lemma {:induction false} OnesBounded(mask: seq<bool>, k: nat)
    requires k <= |mask|
    ensures Ones(mask, k) <= k
    ensures Ones(mask, k) == k ==> forall i :: 0 <= i < k ==> mask[i]
  {
    if k == 0 {
    } else {
      OnesBounded(mask, k - 1);
    }
  }

  lemma {:induction false} OnesAll(mask: seq<bool>, k: nat)
    requires k <= |mask| && forall i :: 0 <= i < k ==> mask[i]
    ensures Ones(mask, k) == k
  {
    if k == 0 {
    } else {
      OnesAll(mask, k - 1);
    }
  }

  lemma {:induction false} OnesTail(mask: seq<bool>, n: nat, k: nat)
    requires n <= k <= |mask| && forall i :: n <= i < |mask| ==> !mask[i]
    ensures Ones(mask, k) == Ones(mask, n)
  {
    if n == k {
    } else {
      OnesTail(mask, n, k - 1);
    }
  }

  lemma {:induction false} GotAll(mask: seq<bool>, len: nat, k: nat)
    requires 0 < len && k <= FragmentCount(len) && k <= |mask| && forall i :: 0 <= i < k ==> mask[i]
    ensures Got(mask, len, k) == Min(SLOT * k, len)
  {
    CountBounds(len);
    if k == 0 {
    } else {
      GotAll(mask, len, k - 1);
    }
  }

  predicate AllArrived(mask: seq<bool>, n: nat) {
    n <= |mask| && forall i :: 0 <= i < n ==> mask[i]
  }

  /** The entry counts as complete exactly when every fragment has arrived, and then it has the message. */
  lemma CompleteIs(message: Bytes, e: Entry)
    requires Partial(message, e)
    ensures e.count == e.pkgNum <==> AllArrived(e.mask, e.pkgNum)
    ensures e.count == e.pkgNum ==> e.dataLen == |message| && e.buff[..e.dataLen] == message
  {
    var n := FragmentCount(|message|);
    CountBounds(|message|);
    OnesTail(e.mask, n, MAX_FRAGMENTS);
    OnesBounded(e.mask, n);
    if AllArrived(e.mask, n) {
      OnesAll(e.mask, n);
      GotAll(e.mask, |message|, n);
      forall x | 0 <= x < |message| ensures e.buff[x] == message[x] {
        assert SlotIs(e.buff, message, x / SLOT);
      }
    }
  }

  // ----- a packet -----

  /** The encryption types that the link layer has handlers for: none, SPEKE and session key. */
  predicate KnownType(t: Byte) {
    t == 0 || t == 1 || t == 3
  }

  /** LinkLayerProcessBtData up to the decryption: the fragment is stored, and if that completes its
      message, the message is taken out of the pool and handed on. Token, number and place of the fragment
      are in bytes 1 to 3, the encryption type is in byte 5. */
  function ProcessPacket(pool: seq<Entry>, packet: Bytes, now: U64, later: U64, alloc: bool)
    : (seq<Entry>, Option<Bytes>)
    requires PoolOk(pool)
  {
    if |packet| <= HEAD_LEN then (pool, None)
    else
      var (p, status) := Insert(pool, packet[1], packet[2], packet[3], packet[HEAD_LEN..], now, later, alloc);
      if !status.Stored? || !KnownType(packet[5]) then (p, None) else Merge(p, packet[1])
  }

  lemma {:induction false} PacketAt(head: Bytes, message: Bytes, n: Byte, k: nat, i: nat)
    requires |head| == HEAD_LEN && i < k <= n && 0 < |message| && n == FragmentCount(|message|) && SLOT * i < |message|
    ensures Packets(head, message, n, k)[i] == Packet(head, message, n, i)
  {
    CountBounds(|message|);
    if i == k - 1 {
    } else {
      PacketAt(head, message, n, k - 1, i);
    }
  }

  /** While a message is being put together, a fragment of another one is turned away and changes nothing. */
  lemma OtherTokenRefused(e: Entry, token: Byte, pkgNum: nat, i: nat, data: Bytes, now: U64, later: U64, alloc: bool)
    requires EntryOk(e) && !TimedOut(e, now) && token != e.token
    ensures Insert([e], token, pkgNum, i, data, now, later, alloc).0 == [e]
    ensures !Insert([e], token, pkgNum, i, data, now, later, alloc).1.Stored?
  {
    assert ClearTimedOut([e], now) == [e];
  }

  /** The receiver takes a fragment of the sender if and only if the message has at most 16 of them. */
  lemma TakenIfShort(message: Bytes, i: nat)
    requires 0 < |message| && SLOT * i < |message|
    ensures CheckFragment(FragmentCount(|message|), i, Chunk(message, i)).Stored?
       <==> FragmentCount(|message|) <= MAX_FRAGMENTS
  {
    CountBounds(|message|);
  }

  // ----- the pool as it stands in memory -----

  class PackagePool {
    var pkgs: seq<Entry>

    constructor ()
      ensures pkgs == []
    {
      pkgs := [];
    }

    method ClearTimeoutPkg(now: U64)
      modifies this
      ensures pkgs == ClearTimedOut(old(pkgs), now)
    {
      var kept: seq<Entry> := [];
      var i := 0;
      assert pkgs[0..] == pkgs;
      while i < |pkgs|
        invariant 0 <= i <= |pkgs| && pkgs == old(pkgs)
        invariant kept + ClearTimedOut(pkgs[i..], now) == ClearTimedOut(pkgs, now)
      {
        assert pkgs[i..][1..] == pkgs[i + 1..];
        if !TimedOut(pkgs[i], now) {
          kept := kept + [pkgs[i]];
        }
        i := i + 1;
      }
      pkgs := kept;
    }

    method FindPkg(token: Byte) returns (k: nat)
      ensures k == Find(pkgs, token, 0)
    {
      k := 0;
      while k < |pkgs| && pkgs[k].token != token
        invariant k <= |pkgs| && Find(pkgs, token, 0) == Find(pkgs, token, k)
      {
        k := k + 1;
      }
    }

    method PkgInsert(token: Byte, pkgNum: nat, i: nat, data: Bytes, now: U64, later: U64, alloc: bool)
      returns (status: RecvStatus)
      requires PoolOk(pkgs)
      modifies this
      ensures (pkgs, status) == Insert(old(pkgs), token, pkgNum, i, data, now, later, alloc)
    {
      status := CheckFragment(pkgNum, i, data);
      if !status.Stored? {
        return;
      }
      ClearedOk(pkgs, now);
      ClearTimeoutPkg(now);
      var k := FindPkg(token);
      if k == |pkgs| {
        if |pkgs| >= POOL_SIZE {
          return PoolFull;
        }
        if alloc {
          return NoMemory;
        }
        pkgs := pkgs + [Fresh(token, pkgNum, later)];
      }
      var (e, s) := Store(pkgs[k], i, data);
      pkgs := pkgs[k := e];
      status := s;
    }

    method MergePkgs(token: Byte) returns (message: Option<Bytes>)
      modifies this
      ensures (pkgs, message) == Merge(old(pkgs), token)
    {
      var k := FindPkg(token);
      if k == |pkgs| || pkgs[k].count != pkgs[k].pkgNum || pkgs[k].dataLen == 0 || pkgs[k].dataLen > |pkgs[k].buff| {
        return None;
      }
      message := Some(pkgs[k].buff[..pkgs[k].dataLen]);
      pkgs := pkgs[..k] + pkgs[k + 1..];
    }

    /** LinkLayerRecvCompleteCheck: none if the token is not there or has too many fragments. */
    method CompleteCheck(token: Byte) returns (complete: Option<bool>)
      ensures complete == Some(true) <==>
        var k := Find(pkgs, token, 0);
        k < |pkgs| && pkgs[k].count == pkgs[k].pkgNum
    {
      var k := FindPkg(token);
      if k == |pkgs| || pkgs[k].count > pkgs[k].pkgNum {
        return None;
      }
      complete := Some(pkgs[k].count == pkgs[k].pkgNum);
    }

    method ProcessBtData(packet: Bytes, now: U64, later: U64, alloc: bool) returns (message: Option<Bytes>)
      requires PoolOk(pkgs)
      modifies this
      ensures (pkgs, message) == ProcessPacket(old(pkgs), packet, now, later, alloc)
    {
      if |packet| <= HEAD_LEN {
        return None;
      }
      var token := packet[1];
      var status := PkgInsert(token, packet[2], packet[3], packet[HEAD_LEN..], now, later, alloc);
      if !status.Stored? || !KnownType(packet[5]) {
        return None;
      }
      var complete := CompleteCheck(token);
      if complete != Some(true) {
        return None;
      }
      message := MergePkgs(token);
    }
  }
}
