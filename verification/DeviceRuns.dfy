/** Whole runs of the device configuration: what survives saves, failures and restarts. */
module DeviceRuns {
  import opened Common
  import opened StoreItem
  import opened DeviceConfig
  import opened CString
  import Hex

  // ----- runs in which everything succeeds -----

  /** Auth info may be taken by a device with this uidHash: one that has none, or the same. */
  predicate Matches(uid: Bytes, received: AuthInfo) {
    uid == [] || CStr(received.uidHash) == uid
  }

  /** What is kept: the auth info and the flag. */
  datatype Kept = Kept(auth: AuthInfo, flag: Byte)

  function KeptIn(ram: Bytes): Kept
    requires |ram| == INFO_LEN
  {
    Kept(AuthOf(ram), ram[1])
  }

  /** What the steps should amount to: variables that survive restarts. */
  function Intended(v: Kept, step: Step): Kept {
    match step
    case StoreAuth(info, _) => v.(auth := info)
    case Receive(q, _) =>
      var p := Parse(q);
      if p.Some? && Matches(CStr(v.auth.uidHash), p.value) then v.(auth := p.value) else v
    case Clear(_) => v.(auth := NoAuth())
    case Revoke(flag, _) => v.(flag := flag)
    case PowerCycle(_, _) => v
  }

  function IntendedAll(v: Kept, steps: seq<Step>): Kept {
    if steps == [] then v else Intended(IntendedAll(v, steps[..|steps| - 1]), steps[|steps| - 1])
  }

  /** Nothing outside fails: the commit of a save, or the pull of a restart. */
  predicate Calm(step: Step) {
    if step.PowerCycle? then !step.reg && !Faulty(Encrypt, step.f) else !WriteFaulty(Encrypt, step.a.w, step.a.r)
  }

  /** The item is registered and RAM is what a restart would bring back. */
  predicate Settled(c: Crypto, s: Config) {
    && ConfigOk(s) && s.registered && AuthTerminated(AuthOf(s.ram))
    && if CONFIG_NAME in s.kv then Synced(c, s) else s.ram == Zeros(INFO_LEN)
  }

  lemma SaveSettles(c: Crypto, s: Config, a: Attempt)
    requires Lawful(c) && ConfigOk(s) && s.registered && |a.salt| == SALT_LEN && !WriteFaulty(Encrypt, a.w, a.r)
    requires AuthTerminated(AuthOf(s.ram))
    ensures Settled(c, Save(c, s, a).config) && KeptIn(Save(c, s, a).config.ram) == KeptIn(s.ram)
    ensures Save(c, s, a).status.Done?
  {
    SaveIs(c, s, a);
    VersionApart(s.ram);
  }

  lemma SaveAuthSettles(c: Crypto, s: Config, info: AuthInfo, a: Attempt)
    requires Lawful(c) && ConfigOk(s) && s.registered && |a.salt| == SALT_LEN && !WriteFaulty(Encrypt, a.w, a.r)
    requires AuthSized(info) && AuthTerminated(info)
    ensures Settled(c, SaveAuth(c, s, info, a).config)
    ensures KeptIn(SaveAuth(c, s, info, a).config.ram) == Kept(info, s.ram[1])
  {
    AuthOfPut(s.ram, info);
    SaveSettles(c, s.(ram := PutAuth(s.ram, info)), a);
  }

  lemma RestartSettles(c: Crypto, s: Config, f: ReadFaults)
    requires Settled(c, s) && !Faulty(Encrypt, f)
    ensures Settled(c, Restart(c, s.kv, false, f)) && KeptIn(Restart(c, s.kv, false, f).ram) == KeptIn(s.ram)
  {
    if CONFIG_NAME in s.kv {
      RestartSynced(c, s, f);
      TerminateSame(s.ram);
    } else {
      RestartFresh(c, s.kv, f);
    }
  }

  lemma CalmStep(c: Crypto, s: Config, step: Step)
    requires Lawful(c) && Settled(c, s) && Legal(step) && Calm(step)
    ensures Settled(c, Next(c, s, step).config)
    ensures KeptIn(Next(c, s, step).config.ram) == Intended(KeptIn(s.ram), step)
  {
    match step
    case StoreAuth(info, a) => SaveAuthSettles(c, s, info, a);
    case Receive(q, a) =>
      var p := Parse(q);
      if p.Some? { SaveAuthSettles(c, s, p.value, a); }
    case Clear(a) => SaveAuthSettles(c, s, NoAuth(), a);
    case Revoke(flag, a) =>
      RevokeApart(s.ram, flag);
      SaveSettles(c, s.(ram := Put(s.ram, REVOKE, [flag])), a);
    case PowerCycle(_, f) => RestartSettles(c, s, f);
  }

  function NextAll(c: Crypto, s: Config, steps: seq<Step>): (t: Config)
    requires ConfigOk(s) && forall k :: 0 <= k < |steps| ==> Legal(steps[k])
    ensures ConfigOk(t)
  {
    if steps == [] then s
    else
      var last := steps[|steps| - 1];
      assert Legal(last);
      Next(c, NextAll(c, s, steps[..|steps| - 1]), last).config
  }

  /** In every run in which every commit and every pull succeeds, restarts included, the auth info and the
      flag are those last saved. */
  lemma {:induction false} CalmRun(c: Crypto, s: Config, steps: seq<Step>)
    requires Lawful(c) && Settled(c, s)
    requires forall k :: 0 <= k < |steps| ==> Legal(steps[k]) && Calm(steps[k])
    ensures Settled(c, NextAll(c, s, steps))
    ensures KeptIn(NextAll(c, s, steps).ram) == IntendedAll(KeptIn(s.ram), steps)
  {
    if steps == [] {
    } else {
      CalmRun(c, s, steps[..|steps| - 1]);
      CalmStep(c, NextAll(c, s, steps[..|steps| - 1]), steps[|steps| - 1]);
    }
  }

  /** A new device, on its first start, is settled. */
  lemma FirstStart(c: Crypto, kv: Kv, f: ReadFaults)
    requires CONFIG_NAME !in kv && !Faulty(Encrypt, f)
    ensures Settled(c, Restart(c, kv, false, f)) && KeptIn(Restart(c, kv, false, f).ram) == Kept(NoAuth(), 0)
    ensures CStr(NoAuth().uidHash) == []
  {
    RestartFresh(c, kv, f);
    var z := Zeros(INFO_LEN);
    assert Slice(z, DEVID) == Zeros(DEVID.size) && Slice(z, UID) == Zeros(UID.size);
    assert Slice(z, CODEID) == Zeros(CODEID.size) && Slice(z, CODE) == Zeros(CODE.size);
  }

  // ----- what the backend holds, and runs in which anything fails -----

  /** What a pull can make of the bytes under the name of the configuration: nothing, or a frame of some
      length whose payload opens or does not. */
  datatype Entry = Unreadable | Frame(len: nat, value: Option<Bytes>)

  predicate EntryOk(e: Entry) {
    e.Frame? ==> 0 < e.len <= INFO_LEN && (e.value.Some? ==> |e.value.value| == e.len)
  }

  function EntryOf(c: Crypto, b: Bytes): (e: Entry)
    ensures EntryOk(e)
  {
    if |b| <= HEADER_LEN || |b| > INFO_LEN + HEADER_LEN || b[0] != VERSION || LenOf(b) != |PayloadOf(b)| then Unreadable
    else
      var key := c.hkdf(SaltOf(b));
      if |key| < GCM_KEY_LEN then Unreadable
      else
        var plain := c.open(key[..GCM_KEY_LEN], key[GCM_KEY_LEN..], MacOf(b)[..TAG_LEN], PayloadOf(b));
        Frame(|PayloadOf(b)|, if plain.Some? && |plain.value| == |PayloadOf(b)| then plain else None)
  }

  function Stored(kv: Kv): Bytes {
    if CONFIG_NAME in kv then kv[CONFIG_NAME] else []
  }

  /** The bytes that a pull puts at the front of RAM. */
  function Pulled(e: Entry, f: ReadFaults): (b: Bytes)
    requires EntryOk(e)
    ensures |b| <= INFO_LEN
  {
    if e.Unreadable? || f.getLen || f.alloc || f.get || f.hkdf then []
    else if f.gcm || e.value.None? then Front(f.left, e.len)
    else e.value.value
  }

  function Booted(e: Entry, reg: bool, f: ReadFaults): (ram: Bytes)
    requires EntryOk(e)
    ensures |ram| == INFO_LEN
  {
    if reg then Zeros(INFO_LEN) else Terminate(Overlay(Zeros(INFO_LEN), Pulled(e, f)))
  }

  lemma PullIs(c: Crypto, s: Config, f: ReadFaults)
    requires ConfigOk(s)
    ensures Read(c, ItemOf(s), s.kv, f).item.buffer == Some(Overlay(s.ram, Pulled(EntryOf(c, Stored(s.kv)), f)))
  {
    assert Overlay(s.ram, []) == s.ram;
  }

  /** Whatever the backend holds and whatever fails, RAM after a restart. */
  lemma RestartIs(c: Crypto, kv: Kv, reg: bool, f: ReadFaults)
    ensures Restart(c, kv, reg, f).ram == Booted(EntryOf(c, Stored(kv)), reg, f)
    ensures Restart(c, kv, reg, f).kv == kv && Restart(c, kv, reg, f).registered == !reg
  {
    PullIs(c, Config(Zeros(INFO_LEN), INFO_LEN, kv, !reg), f);
  }

  /** A device without its ciphers: RAM, what a pull would make of the backend, and whether the item is
      registered. */
  datatype Device = Device(ram: Bytes, entry: Entry, registered: bool)

  predicate DeviceOk(d: Device) {
    |d.ram| == INFO_LEN && EntryOk(d.entry)
  }

  function DeviceOf(c: Crypto, s: Config): (d: Device)
    requires ConfigOk(s)
    ensures DeviceOk(d)
  {
    Device(s.ram, EntryOf(c, Stored(s.kv)), s.registered)
  }

  /** What a backend that fails leaves under the name. */
  function LeftBehind(w: WriteFaults): Bytes
    requires w.kvSet.Some?
  {
    if w.kvSet.value.Some? then w.kvSet.value.value else []
  }

  /** A backend that fails leaves the entry as it was. */
  predicate LeavesEntry(kv: Kv, w: WriteFaults) {
    w.kvSet.Some? ==> LeftBehind(w) == Stored(kv)
  }

  /** The entry after a write: as it was if the write failed before it set the key, what the backend left
      if that failed, and what was in RAM otherwise. */
  function EntryAfter(c: Crypto, e: Entry, ram: Bytes, w: WriteFaults): (r: Entry)
    requires EntryOk(e) && |ram| == INFO_LEN
    ensures EntryOk(r)
  {
    if SealFaulty(Encrypt, w) then e
    else if w.kvSet.Some? then EntryOf(c, LeftBehind(w))
    else Frame(INFO_LEN, Some(ram))
  }

  function Saving(c: Crypto, d: Device, ram: Bytes, a: Attempt): (r: Device)
    requires DeviceOk(d) && |ram| == INFO_LEN
    ensures DeviceOk(r)
  {
    var r := ram[0 := DATA_VER];
    if d.registered then Device(AfterSave(r, a), EntryAfter(c, d.entry, r, a.w), true) else Device(r, d.entry, false)
  }

  function UidOf(ram: Bytes): Bytes
    requires |ram| == INFO_LEN
  {
    CStr(Slice(ram, UID))
  }

  predicate Accepts(ram: Bytes, q: Request)
    requires |ram| == INFO_LEN
  {
    Parse(q).Some? && Matches(UidOf(ram), Parse(q).value)
  }

  function Move(c: Crypto, d: Device, step: Step): (r: Device)
    requires DeviceOk(d) && Legal(step)
    ensures DeviceOk(r)
  {
    match step
    case StoreAuth(info, a) => Saving(c, d, PutAuth(d.ram, info), a)
    case Receive(q, a) => if Accepts(d.ram, q) then Saving(c, d, PutAuth(d.ram, Parse(q).value), a) else d
    case Clear(a) => Saving(c, d, PutAuth(d.ram, NoAuth()), a)
    case Revoke(flag, a) => Saving(c, d, Put(d.ram, REVOKE, [flag]), a)
    case PowerCycle(reg, f) => Device(Booted(d.entry, reg, f), d.entry, !reg)
  }

  lemma HoldsEntry(c: Crypto, b: Bytes, value: Bytes)
    requires Holds(c, Encrypt, b, value) && |value| == INFO_LEN
    ensures EntryOf(c, b) == Frame(INFO_LEN, Some(value))
  {}

  lemma SavingIs(c: Crypto, s: Config, a: Attempt)
    requires Lawful(c) && ConfigOk(s) && |a.salt| == SALT_LEN
    ensures DeviceOf(c, Save(c, s, a).config) == Saving(c, DeviceOf(c, s), s.ram, a)
  {
    var s' := s.(ram := s.ram[0 := DATA_VER], len := INFO_LEN);
    SaveIs(c, s, a);
    WriteReaches(c, ItemOf(s'), s.kv, a.salt, a.w, a.r);
    if s.registered && Reached(a) {
      assert s'.ram[..INFO_LEN] == s'.ram;
      HoldsEntry(c, Save(c, s, a).config.kv[CONFIG_NAME], s'.ram);
    }
  }

  /** Every step, whatever fails in it, does to RAM and to the entry what it would do without ciphers. */
  lemma MoveIs(c: Crypto, s: Config, step: Step)
    requires Lawful(c) && ConfigOk(s) && Legal(step)
    ensures DeviceOf(c, Next(c, s, step).config) == Move(c, DeviceOf(c, s), step)
  {
    match step
    case StoreAuth(info, a) => SavingIs(c, s.(ram := PutAuth(s.ram, info)), a);
    case Receive(q, a) => if Accepts(s.ram, q) { SavingIs(c, s.(ram := PutAuth(s.ram, Parse(q).value)), a); }
    case Clear(a) => SavingIs(c, s.(ram := PutAuth(s.ram, NoAuth())), a);
    case Revoke(flag, a) => SavingIs(c, s.(ram := Put(s.ram, REVOKE, [flag])), a);
    case PowerCycle(reg, f) => RestartIs(c, s.kv, reg, f);
  }

  predicate LegalAll(steps: seq<Step>) {
    forall k :: 0 <= k < |steps| ==> Legal(steps[k])
  }

  function MoveAll(c: Crypto, d: Device, steps: seq<Step>): (r: Device)
    requires DeviceOk(d) && LegalAll(steps)
    ensures DeviceOk(r)
  {
    if steps == [] then d else Move(c, MoveAll(c, d, steps[..|steps| - 1]), steps[|steps| - 1])
  }

  /** The same for every legal run. */
  lemma {:induction false} MoveAllIs(c: Crypto, s: Config, steps: seq<Step>)
    requires Lawful(c) && ConfigOk(s) && LegalAll(steps)
    ensures DeviceOf(c, NextAll(c, s, steps)) == MoveAll(c, DeviceOf(c, s), steps)
  {
    if steps == [] {
    } else {
      var front, last := steps[..|steps| - 1], steps[|steps| - 1];
      MoveAllIs(c, s, front);
      MoveIs(c, NextAll(c, s, front), last);
    }
  }

  /** RAM after a save and a restart, whatever fails in either: what was saved if the save set the key,
      even if it was then reported as failed; all that there was before if the save left the entry alone, as
      one of an unregistered item does; and what there is in the damaged entry if the backend failed and left
      another one. */
  lemma SaveAuthRestart(c: Crypto, s: Config, info: AuthInfo, a: Attempt, reg: bool, f: ReadFaults)
    requires Lawful(c) && ConfigOk(s) && |a.salt| == SALT_LEN && AuthSized(info)
    ensures var t := Restart(c, SaveAuth(c, s, info, a).config.kv, reg, f);
      && (s.registered && Reached(a) ==>
            t.ram == Booted(Frame(INFO_LEN, Some(PutAuth(s.ram, info)[0 := DATA_VER])), reg, f))
      && (s.registered && Reached(a) && !reg && !Faulty(Encrypt, f) ==> AuthOf(t.ram) == TerminateAuth(info))
      && (!s.registered || (!Reached(a) && (SealFaulty(Encrypt, a.w) || LeavesEntry(s.kv, a.w))) ==>
            t.ram == Restart(c, s.kv, reg, f).ram)
      && (s.registered && !Reached(a) && !SealFaulty(Encrypt, a.w) ==>
            t.ram == Booted(EntryOf(c, LeftBehind(a.w)), reg, f))
  {
    var ram := PutAuth(s.ram, info);
    SavingIs(c, s.(ram := ram), a);
    RestartIs(c, SaveAuth(c, s, info, a).config.kv, reg, f);
    RestartIs(c, s.kv, reg, f);
    if s.registered && Reached(a) && !reg && !Faulty(Encrypt, f) {
      AuthOfPut(s.ram, info);
      VersionApart(ram);
      AuthOfTerminate(ram[0 := DATA_VER]);
      assert Overlay(Zeros(INFO_LEN), ram[0 := DATA_VER]) == ram[0 := DATA_VER];
    }
  }

  // ----- the uidHash -----

  function Uid(s: Config): Bytes
    requires ConfigOk(s)
  {
    UidOf(s.ram)
  }

  /** What becomes of a request: it is saved if it can be read and the device has no uidHash or the same;
      otherwise it is refused and nothing changes. */
  lemma ReceiveIs(c: Crypto, s: Config, q: Request, a: Attempt)
    requires ConfigOk(s)
    ensures var t, p := Next(c, s, Receive(q, a)), Parse(q);
      && (p.Some? && (Uid(s) == [] || CStr(p.value.uidHash) == Uid(s)) ==> t == SaveAuth(c, s, p.value, a))
      && (p.Some? && Uid(s) != [] && CStr(p.value.uidHash) != Uid(s) ==> t == Outcome(s, Failed(InvalidKey)))
      && (p.None? ==> t == Outcome(s, Failed(ParamInvalid)))
  {}

  /** The uidHash that a request sends: one that is missing or too long counts as none. */
  function UidSent(q: Request): Bytes {
    if q.uidHash.Some? && |q.uidHash.value| <= 64 then q.uidHash.value else []
  }

  /** A request succeeds if and only if its strings are well formed, the device has no uidHash or the one
      that is sent, and the save succeeds; the device then has the uidHash that was sent. */
  lemma ReceiveDone(c: Crypto, s: Config, q: Request, a: Attempt)
    requires Lawful(c) && ConfigOk(s) && |a.salt| == SALT_LEN
    requires q.devId.Some? ==> NoNul(q.devId.value)
    requires q.authCodeId.Some? ==> NoNul(q.authCodeId.value)
    requires q.uidHash.Some? ==> NoNul(q.uidHash.value)
    ensures var t := Next(c, s, Receive(q, a));
      && (t.status.Done? <==>
            && q.devId.Some? && |q.devId.value| <= 40 && q.authCodeId.Some? && |q.authCodeId.value| <= 32
            && q.authCode.Some? && 0 < |q.authCode.value| <= 32 && |q.authCode.value| % 2 == 0
            && Hex.AllHex(q.authCode.value) && (Uid(s) == [] || UidSent(q) == Uid(s))
            && s.registered && !WriteFaulty(Encrypt, a.w, a.r))
      && (t.status.Done? ==> Uid(t.config) == UidSent(q) && KeptIn(t.config.ram) == Kept(Parse(q).value, s.ram[1]))
  {
    ParseIs(q);
    ReceiveIs(c, s, q, a);
    if Accepts(s.ram, q) {
      var p := Parse(q).value;
      SaveIs(c, s.(ram := PutAuth(s.ram, p)), a);
      AuthOfPut(s.ram, p);
      VersionApart(PutAuth(s.ram, p));
      assert AuthOf(PutAuth(s.ram, p)).uidHash == p.uidHash;
    }
  }

  /** The uidHash that the front of a structure spells. */
  function UidIn(b: Bytes): Bytes {
    if |b| <= UID.offset then [] else CStr(b[UID.offset..Min(|b|, UID.offset + UID.size - 1)])
  }

  /** A string with its closing zero, as far as the field has room. */
  function Closed(uid: Bytes): Bytes {
    Front(uid + [0], UID.size)
  }

  /** Bytes written over the front of RAM leave the uidHash there as it is. */
  predicate Agrees(left: Bytes, uid: Bytes) {
    forall k :: 0 <= k < |Closed(uid)| && UID.offset + k < |left| ==> left[UID.offset + k] == Closed(uid)[k]
  }

  lemma ClosedIs(b: Bytes, s: Bytes)
    requires |b| == UID.size && NoNul(s) && |s| <= UID.size
    ensures CStr(b) == s <==> forall k :: 0 <= k < |Closed(s)| ==> b[k] == Closed(s)[k]
  {
    var z := Closed(s);
    if forall k :: 0 <= k < |z| ==> b[k] == z[k] {
      assert forall k :: 0 <= k < |s| ==> b[k] == s[k] by { assert forall k :: 0 <= k < |s| ==> z[k] == s[k]; }
      assert b[..|s|] == s;
      if |s| < UID.size { assert z[|s|] == 0; }
      CStrIs(b, s);
    }
  }

  lemma OverlaidUid(ram: Bytes, left: Bytes)
    requires |ram| == INFO_LEN
    ensures UidOf(Overlay(ram, Front(left, INFO_LEN))) == UidOf(ram) <==> Agrees(left, UidOf(ram))
  {
    var b, b', u := Slice(ram, UID), Slice(Overlay(ram, Front(left, INFO_LEN)), UID), UidOf(ram);
    assert forall k :: 0 <= k < UID.size ==> b'[k] == if UID.offset + k < |left| then left[UID.offset + k] else b[k];
    ClosedIs(b, u);
    ClosedIs(b', u);
    if CStr(b') == u {
      forall k | 0 <= k < |Closed(u)| && UID.offset + k < |left| ensures left[UID.offset + k] == Closed(u)[k] {
        assert b'[k] == Closed(u)[k];
      }
    }
  }

  /** The uidHash after a restart. */
  lemma BootedUid(e: Entry, reg: bool, f: ReadFaults)
    requires EntryOk(e)
    ensures UidOf(Booted(e, reg, f)) == if reg then [] else UidIn(Pulled(e, f))
  {
    var b, r := Pulled(e, f), Slice(Booted(e, reg, f), UID);
    if reg {
      assert r[0] == 0;
      CStrIs(r, []);
    } else {
      var u, o := UidIn(b), Overlay(Zeros(INFO_LEN), b);
      assert forall j :: 0 <= j < INFO_LEN ==> o[j] == if j < |b| then b[j] else 0;
      assert forall k :: 0 <= k < UID.size - 1 ==> r[k] == o[UID.offset + k];
      assert r[UID.size - 1] == 0;
      assert r[..|u|] == u;
      assert r[|u|] == 0;
      CStrIs(r, u);
    }
  }

  /** The steps a device takes by itself: auth info comes in through the service only, and nobody clears it. */
  predicate Ordinary(step: Step) {
    step.Receive? || step.Revoke? || step.PowerCycle?
  }

  /** The condition, before a step, under which the step keeps the uidHash: a save must not have a
      read-back that fails over it, and a restart must register the item and get a uidHash from the
      backend that is the one in RAM. */
  predicate KeepsUid(d: Device, step: Step)
    requires DeviceOk(d) && Ordinary(step)
  {
    match step
    case Receive(q, a) => Accepts(d.ram, q) && d.registered && SpoilsRam(a) ==> Agrees(a.r.left, UidOf(d.ram))
    case Revoke(_, a) => d.registered && SpoilsRam(a) ==> Agrees(a.r.left, UidOf(d.ram))
    case PowerCycle(reg, f) => !reg && UidIn(Pulled(d.entry, f)) == UidOf(d.ram)
  }

  lemma VersionUid(ram: Bytes)
    requires |ram| == INFO_LEN
    ensures Slice(ram[0 := DATA_VER], UID) == Slice(ram, UID)
  {
    VersionApart(ram);
    assert AuthOf(ram[0 := DATA_VER]).uidHash == AuthOf(ram).uidHash;
  }

  lemma PutAuthUid(ram: Bytes, info: AuthInfo)
    requires |ram| == INFO_LEN && AuthSized(info)
    ensures Slice(PutAuth(ram, info), UID) == info.uidHash
  {
    AuthOfPut(ram, info);
    assert AuthOf(PutAuth(ram, info)).uidHash == info.uidHash;
  }

  lemma RevokeUid(ram: Bytes, flag: Byte)
    requires |ram| == INFO_LEN
    ensures Slice(Put(ram, REVOKE, [flag]), UID) == Slice(ram, UID)
  {
    RevokeApart(ram, flag);
    assert AuthOf(Put(ram, REVOKE, [flag])).uidHash == AuthOf(ram).uidHash;
  }

  lemma SavingUid(c: Crypto, d: Device, ram: Bytes, a: Attempt)
    requires DeviceOk(d) && |ram| == INFO_LEN
    ensures UidOf(Saving(c, d, ram, a).ram) == UidOf(ram)
       <==> (d.registered && SpoilsRam(a) ==> Agrees(a.r.left, UidOf(ram)))
  {
    VersionUid(ram);
    OverlaidUid(ram[0 := DATA_VER], a.r.left);
  }

  lemma MoveUid(c: Crypto, d: Device, step: Step)
    requires DeviceOk(d) && Legal(step) && Ordinary(step) && UidOf(d.ram) != []
    ensures UidOf(Move(c, d, step).ram) == UidOf(d.ram) <==> KeepsUid(d, step)
  {
    match step
    case Receive(q, a) =>
      if Accepts(d.ram, q) {
        var p := Parse(q).value;
        PutAuthUid(d.ram, p);
        SavingUid(c, d, PutAuth(d.ram, p), a);
      }
    case Revoke(flag, a) =>
      RevokeUid(d.ram, flag);
      SavingUid(c, d, Put(d.ram, REVOKE, [flag]), a);
    case PowerCycle(reg, f) => BootedUid(d.entry, reg, f);
  }

  /** A step keeps a uidHash that is set if and only if its condition holds. */
  lemma UidStep(c: Crypto, s: Config, step: Step)
    requires Lawful(c) && ConfigOk(s) && Legal(step) && Ordinary(step) && Uid(s) != []
    ensures Uid(Next(c, s, step).config) == Uid(s) <==> KeepsUid(DeviceOf(c, s), step)
  {
    MoveIs(c, s, step);
    MoveUid(c, DeviceOf(c, s), step);
  }

  predicate OrdinaryAll(steps: seq<Step>) {
    forall k :: 0 <= k < |steps| ==> Legal(steps[k]) && Ordinary(steps[k])
  }

  /** Every step of the run meets its condition, in the state that the steps before it, with all that
      failed in them, have left. */
  predicate KeepsAll(c: Crypto, d: Device, steps: seq<Step>)
    requires DeviceOk(d) && OrdinaryAll(steps)
  {
    steps == []
    || var front := steps[..|steps| - 1];
       KeepsAll(c, d, front) && KeepsUid(MoveAll(c, d, front), steps[|steps| - 1])
  }

  /** The uidHash is the same at every point of the run. */
  predicate UidAlong(c: Crypto, s: Config, steps: seq<Step>)
    requires ConfigOk(s) && OrdinaryAll(steps)
  {
    Uid(NextAll(c, s, steps)) == Uid(s) && (steps == [] || UidAlong(c, s, steps[..|steps| - 1]))
  }

  /** In every legal run without a clearing, whatever fails, a uidHash that is set stays as it is all along
      if and only if every step meets its condition. */
  lemma {:induction false} UidRun(c: Crypto, s: Config, steps: seq<Step>)
    requires Lawful(c) && ConfigOk(s) && Uid(s) != [] && OrdinaryAll(steps)
    ensures UidAlong(c, s, steps) <==> KeepsAll(c, DeviceOf(c, s), steps)
  {
    if steps == [] {
    } else {
      var front, last := steps[..|steps| - 1], steps[|steps| - 1];
      UidRun(c, s, front);
      MoveAllIs(c, s, front);
      if UidAlong(c, s, front) { UidStep(c, NextAll(c, s, front), last); }
    }
  }

  /** The entry opens and spells the uidHash. */
  predicate Spells(e: Entry, uid: Bytes) {
    e.Frame? && e.value.Some? && UidIn(e.value.value) == uid
  }

  /** Failures that do no harm: a save that fails before it sets the key or in its read-back, but not in
      the decryption. */
  predicate Harmless(step: Step) {
    if step.PowerCycle? then !step.reg && !Faulty(Encrypt, step.f)
    else if step.Clear? || step.StoreAuth? then false
    else !SpoilsRam(step.a) && (SealFaulty(Encrypt, step.a.w) || step.a.w.kvSet.None?)
  }

  lemma SettledSpells(c: Crypto, s: Config)
    requires Settled(c, s) && Uid(s) != []
    ensures Spells(DeviceOf(c, s).entry, Uid(s))
  {
    if CONFIG_NAME in s.kv {
      HoldsEntry(c, s.kv[CONFIG_NAME], s.ram);
      TerminatedUid(s.ram);
    }
  }

  lemma TerminatedUid(ram: Bytes)
    requires |ram| == INFO_LEN && Terminated(Slice(ram, UID))
    ensures UidIn(ram) == UidOf(ram)
  {
    var b, u := Slice(ram, UID), UidOf(ram);
    assert b[UID.size - 1] == 0 && |u| < UID.size;
    assert ram[UID.offset..UID.offset + UID.size - 1][..|u|] == u;
    CStrIs(ram[UID.offset..UID.offset + UID.size - 1], u);
  }

  predicate Safe(d: Device, uid: Bytes) {
    DeviceOk(d) && Terminated(Slice(d.ram, UID)) && UidOf(d.ram) == uid && Spells(d.entry, uid)
  }

  lemma SavingSafe(c: Crypto, d: Device, ram: Bytes, a: Attempt)
    requires DeviceOk(d) && |ram| == INFO_LEN && Terminated(Slice(ram, UID)) && Spells(d.entry, UidOf(ram))
    requires !SpoilsRam(a) && (SealFaulty(Encrypt, a.w) || a.w.kvSet.None?)
    ensures Safe(Saving(c, d, ram, a), UidOf(ram))
  {
    VersionUid(ram);
    TerminatedUid(ram[0 := DATA_VER]);
  }

  lemma SafeMove(c: Crypto, d: Device, step: Step)
    requires Legal(step) && Harmless(step) && DeviceOk(d) && UidOf(d.ram) != [] && Safe(d, UidOf(d.ram))
    ensures Safe(Move(c, d, step), UidOf(d.ram))
  {
    match step
    case Receive(q, a) =>
      if Accepts(d.ram, q) {
        var p := Parse(q).value;
        PutAuthUid(d.ram, p);
        SavingSafe(c, d, PutAuth(d.ram, p), a);
      }
    case Revoke(flag, a) =>
      RevokeUid(d.ram, flag);
      SavingSafe(c, d, Put(d.ram, REVOKE, [flag]), a);
    case PowerCycle(_, f) => BootedSafe(d.entry, f, UidOf(d.ram));
  }

  lemma BootedSafe(e: Entry, f: ReadFaults, uid: Bytes)
    requires EntryOk(e) && Spells(e, uid) && !Faulty(Encrypt, f)
    ensures Safe(Device(Booted(e, false, f), e, true), uid)
  {
    assert Pulled(e, f) == e.value.value;
    BootedTerminated(e, f);
    BootedUid(e, false, f);
  }

  lemma BootedTerminated(e: Entry, f: ReadFaults)
    requires EntryOk(e)
    ensures Terminated(Slice(Booted(e, false, f), UID))
  {}

  /** In every run from a settled device in which nothing is cleared, all that fails is harmless and every
      restart succeeds, a uidHash that is set stays as it is. */
  lemma {:induction false} UidSafeRun(c: Crypto, s: Config, steps: seq<Step>)
    requires Lawful(c) && Settled(c, s) && Uid(s) != []
    requires forall k :: 0 <= k < |steps| ==> Legal(steps[k]) && Harmless(steps[k])
    ensures Uid(NextAll(c, s, steps)) == Uid(s) && Safe(DeviceOf(c, NextAll(c, s, steps)), Uid(s))
  {
    if steps == [] {
      SettledSpells(c, s);
    } else {
      var front, last := steps[..|steps| - 1], steps[|steps| - 1];
      UidSafeRun(c, s, front);
      MoveIs(c, NextAll(c, s, front), last);
      SafeMove(c, DeviceOf(c, NextAll(c, s, front)), last);
    }
  }

  lemma ReceivedUid(c: Crypto, d: Device, p: AuthInfo, a: Attempt)
    requires DeviceOk(d) && AuthSized(p) && AuthTerminated(p)
    ensures var r := Saving(c, d, PutAuth(d.ram, p), a);
      && (UidOf(r.ram) == CStr(p.uidHash) <==> (d.registered && SpoilsRam(a) ==> Agrees(a.r.left, CStr(p.uidHash))))
      && (!d.registered ==> r.entry == d.entry)
      && (d.registered && Reached(a) ==>
            && r.entry.Frame? && r.entry.len == INFO_LEN && r.entry.value.Some?
            && UidIn(r.entry.value.value) == CStr(p.uidHash))
  {
    var r := PutAuth(d.ram, p);
    PutAuthUid(d.ram, p);
    VersionUid(r);
    TerminatedUid(r[0 := DATA_VER]);
    SavingUid(c, d, r, a);
  }

  lemma TakenIs(c: Crypto, s: Config, q: Request, a: Attempt)
    requires Lawful(c) && ConfigOk(s) && |a.salt| == SALT_LEN && Accepts(s.ram, q)
    ensures DeviceOf(c, Next(c, s, Receive(q, a)).config)
         == Saving(c, DeviceOf(c, s), PutAuth(s.ram, Parse(q).value), a)
  {
    MoveIs(c, s, Receive(q, a));
  }

  lemma RestartUid(c: Crypto, s: Config, reg: bool, f: ReadFaults)
    requires Lawful(c) && ConfigOk(s)
    ensures Uid(Next(c, s, PowerCycle(reg, f)).config) == if reg then [] else UidIn(Pulled(DeviceOf(c, s).entry, f))
  {
    MoveIs(c, s, PowerCycle(reg, f));
    BootedUid(DeviceOf(c, s).entry, reg, f);
  }

  lemma PulledUid(e: Entry, f: ReadFaults)
    requires EntryOk(e) && e.Frame? && e.len == INFO_LEN && e.value.Some?
    ensures UidIn(Pulled(e, f)) == if f.getLen || f.alloc || f.get || f.hkdf then []
                                   else if f.gcm then UidIn(Front(f.left, INFO_LEN))
                                   else UidIn(e.value.value)
  {}

  /** A request that is taken sets the uidHash in RAM, unless its read-back fails over it; and the restart
      after it has that uidHash if and only if the item is registered again and the pull gets it from what the
      save has left in the backend; on a device whose item was not registered that is what was there before. */
  lemma UidSurvives(c: Crypto, s: Config, q: Request, a: Attempt, reg: bool, f: ReadFaults)
    requires Lawful(c) && ConfigOk(s) && Legal(Receive(q, a)) && Accepts(s.ram, q)
    ensures var t, p := Next(c, s, Receive(q, a)).config, Parse(q).value;
      var uid, u := CStr(p.uidHash), Next(c, t, PowerCycle(reg, f)).config;
      && (Uid(t) == uid <==> (s.registered && SpoilsRam(a) ==> Agrees(a.r.left, uid)))
      && Uid(u) == (if reg then [] else UidIn(Pulled(Saving(c, DeviceOf(c, s), PutAuth(s.ram, p), a).entry, f)))
      && (!s.registered ==> Uid(u) == Uid(Next(c, s, PowerCycle(reg, f)).config))
      && (s.registered && Reached(a) ==>
            Uid(u) == if reg || f.getLen || f.alloc || f.get || f.hkdf then []
                      else if f.gcm then UidIn(Front(f.left, INFO_LEN))
                      else uid)
  {
    var p, t := Parse(q).value, Next(c, s, Receive(q, a)).config;
    ReceivedUid(c, DeviceOf(c, s), p, a);
    TakenIs(c, s, q, a);
    RestartUid(c, t, reg, f);
    RestartUid(c, s, reg, f);
    if s.registered && Reached(a) { PulledUid(DeviceOf(c, t).entry, f); }
  }

  // ----- a uidHash that is lost -----

  /** On every device with a uidHash: a request with another one is refused; after a restart whose pull
      fails the same request is taken, and its uidHash is there after the next restart as well, though
      every save succeeded and nobody cleared anything. */
  lemma FailedPullRebinds(c: Crypto, s: Config, q: Request, a: Attempt, f: ReadFaults, g: ReadFaults)
    requires Lawful(c) && ConfigOk(s) && Uid(s) != [] && Legal(Receive(q, a)) && !WriteFaulty(Encrypt, a.w, a.r)
    requires Parse(q).Some? && CStr(Parse(q).value.uidHash) != Uid(s)
    requires (f.getLen || f.alloc || f.get || f.hkdf) && !Faulty(Encrypt, g)
    ensures Next(c, s, Receive(q, a)) == Outcome(s, Failed(InvalidKey))
    ensures var t := Next(c, s, PowerCycle(false, f)).config;
      var u := Next(c, t, Receive(q, a));
      && Uid(t) == [] && u.status.Done? && Uid(u.config) == CStr(Parse(q).value.uidHash)
      && Uid(Next(c, u.config, PowerCycle(false, g)).config) == CStr(Parse(q).value.uidHash)
  {
    MoveIs(c, s, PowerCycle(false, f));
    BootedUid(DeviceOf(c, s).entry, false, f);
    var t := Next(c, s, PowerCycle(false, f)).config;
    UidSurvives(c, t, q, a, false, g);
    SaveIs(c, t.(ram := PutAuth(t.ram, Parse(q).value)), a);
  }

  /** On every device: a backend that fails to store a flag and leaves an empty entry has lost the uidHash
      that was there before; it is gone with the next restart. */
  lemma DamagedEntryLosesUid(c: Crypto, s: Config, flag: Byte, a: Attempt, reg: bool, f: ReadFaults)
    requires Lawful(c) && ConfigOk(s) && s.registered && Legal(Revoke(flag, a))
    requires !SealFaulty(Encrypt, a.w) && a.w.kvSet == Some(Some([]))
    ensures var t := Next(c, s, Revoke(flag, a)).config;
      Uid(t) == Uid(s) && Uid(Next(c, t, PowerCycle(reg, f)).config) == []
  {
    var t := Next(c, s, Revoke(flag, a)).config;
    MoveIs(c, s, Revoke(flag, a));
    RevokeUid(s.ram, flag);
    SavingUid(c, DeviceOf(c, s), Put(s.ram, REVOKE, [flag]), a);
    MoveIs(c, t, PowerCycle(reg, f));
    BootedUid(DeviceOf(c, t).entry, reg, f);
  }

  /** A request sets a uidHash and the restart after it, in which nothing fails, has none. */
  ghost predicate LosesUid(c: Crypto, s: Config, q: Request, a: Attempt, f: ReadFaults) {
    && Legal(Receive(q, a)) && Settled(c, s) && !Faulty(Encrypt, f)
    && var t := Next(c, s, Receive(q, a)).config;
       Uid(t) != [] && Uid(Next(c, t, PowerCycle(false, f)).config) == []
  }

  /** On every new device: a first uidHash whose save fails before it sets the key, or in setting it with
      nothing left behind, is in RAM, and the next restart has none, though nobody cleared it. */
  lemma UnsavedUidLost(c: Crypto, s: Config, q: Request, a: Attempt, f: ReadFaults)
    requires Lawful(c) && Settled(c, s) && CONFIG_NAME !in s.kv && !Faulty(Encrypt, f)
    requires Legal(Receive(q, a)) && Parse(q).Some? && CStr(Parse(q).value.uidHash) != []
    requires !Reached(a) && LeavesEntry(s.kv, a.w)
    ensures LosesUid(c, s, q, a, f)
  {
    assert UidOf(s.ram) == [];
    UidSurvives(c, s, q, a, false, f);
  }

  /** Primitives that obey the laws and hide nothing. */
  function EchoCrypto(): Crypto {
    Crypto(_ => Zeros(KEY_LEN), (_, _) => Zeros(MAC_LEN), (_, _, plain) => Sealed(Zeros(TAG_LEN), plain),
           (_, _, _, cipher) => Some(cipher))
  }

  function SampleRequest(): (q: Request)
    ensures Parse(q).Some? && CStr(Parse(q).value.uidHash) != []
  {
    var q := Request(Some([65]), Some([48, 48]), Some([65]), Some([65]));
    assert StrField([65], UID.size)[0] == 65;
    q
  }

  /** There are such primitives, such devices and such requests. */
  lemma UidLost()
    ensures exists s, q, a, f :: Lawful(EchoCrypto()) && LosesUid(EchoCrypto(), s, q, a, f)
  {
    var c := EchoCrypto();
    var f := ReadFaults(false, false, false, false, false, false, []);
    var s := Restart(c, map[], false, f);
    FirstStart(c, map[], f);
    var q := SampleRequest();
    var a := Attempt(Zeros(SALT_LEN), WriteFaults(false, false, false, false, Some(None)), f);
    UnsavedUidLost(c, s, q, a, f);
    assert LosesUid(c, s, q, a, f);
  }
}
