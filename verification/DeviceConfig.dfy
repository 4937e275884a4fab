/** The device configuration: a 256-byte structure in RAM, mirrored as one encrypted item of the secure
    store, and the authorisation info kept in it (config_info.c, config_authinfo.c,
    dev_svc_auth_setup.c, in the build without Wi-Fi cloud support). */
module DeviceConfig {
  import opened Common
  import opened StoreItem
  import opened CString
  import Hex

  // ----- the field table -----

  datatype Key =
    | RevokeFlag | DeviceId | LoginSecret | LoginPsk | LoginUrl | LoginBackupUrl
    | UidHash | AuthCodeId | AuthCode | NetInfoFlag

  datatype Field = Field(key: Key, offset: nat, size: nat)

  const INFO_LEN := 256
  const DATA_VER: Byte := 1
  const CONFIG_NAME := "dev_data"

  const REVOKE := Field(RevokeFlag, 1, 1)
  const DEVID := Field(DeviceId, 2, 41)
  const UID := Field(UidHash, 43, 65)
  const CODEID := Field(AuthCodeId, 108, 33)
  const CODE := Field(AuthCode, 141, 16)
  const NETINFO := Field(NetInfoFlag, 157, 1)
  const FIELDS: seq<Field> := [REVOKE, DEVID, UID, CODEID, CODE, NETINFO]

  function FieldOf(key: Key): Option<Field> {
    match key
    case RevokeFlag => Some(REVOKE)
    case DeviceId => Some(DEVID)
    case UidHash => Some(UID)
    case AuthCodeId => Some(CODEID)
    case AuthCode => Some(CODE)
    case NetInfoFlag => Some(NETINFO)
    case _ => None
  }

  predicate InTable(f: Field) {
    1 <= f.offset && 0 < f.size && f.offset + f.size <= 158
  }

  predicate Apart(f: Field, g: Field) {
    f.offset + f.size <= g.offset || g.offset + g.size <= f.offset
  }

  function Slice(ram: Bytes, f: Field): (r: Bytes)
    requires |ram| == INFO_LEN && InTable(f)
    ensures |r| == f.size
  {
    ram[f.offset..f.offset + f.size]
  }

  function Put(ram: Bytes, f: Field, data: Bytes): (r: Bytes)
    requires |ram| == INFO_LEN && InTable(f) && |data| <= f.size
    ensures |r| == INFO_LEN
  {
    ram[..f.offset] + data + ram[f.offset + |data|..]
  }

  lemma SlicePut(ram: Bytes, f: Field, data: Bytes)
    requires |ram| == INFO_LEN && InTable(f) && |data| == f.size
    ensures Slice(Put(ram, f, data), f) == data
  {}

  lemma SlicePutOther(ram: Bytes, f: Field, data: Bytes, g: Field)
    requires |ram| == INFO_LEN && InTable(f) && InTable(g) && |data| <= f.size && Apart(f, g)
    ensures Slice(Put(ram, f, data), g) == Slice(ram, g)
  {
    var r := Put(ram, f, data);
    forall k | g.offset <= k < g.offset + g.size ensures r[k] == ram[k] {}
  }

  // ----- C strings -----

  predicate Terminated(b: Bytes) {
    |b| > 0 && b[|b| - 1] == 0
  }

  /** What strcpy_s leaves in a zeroed array. */
  function StrField(str: Bytes, size: nat): (r: Bytes)
    requires |str| < size
    ensures |r| == size && Terminated(r)
  {
    str + Zeros(size - |str|)
  }

  // ----- the authorisation info -----

  datatype AuthInfo = AuthInfo(devId: Bytes, uidHash: Bytes, authCodeId: Bytes, authCode: Bytes)

  predicate AuthSized(a: AuthInfo) {
    |a.devId| == DEVID.size && |a.uidHash| == UID.size && |a.authCodeId| == CODEID.size && |a.authCode| == CODE.size
  }

  predicate AuthTerminated(a: AuthInfo) {
    Terminated(a.devId) && Terminated(a.uidHash) && Terminated(a.authCodeId)
  }

  function AuthOf(ram: Bytes): (a: AuthInfo)
    requires |ram| == INFO_LEN
    ensures AuthSized(a)
  {
    AuthInfo(Slice(ram, DEVID), Slice(ram, UID), Slice(ram, CODEID), Slice(ram, CODE))
  }

  function NoAuth(): (a: AuthInfo)
    ensures AuthSized(a) && AuthTerminated(a)
  {
    AuthInfo(Zeros(DEVID.size), Zeros(UID.size), Zeros(CODEID.size), Zeros(CODE.size))
  }

  function PutAuth(ram: Bytes, a: AuthInfo): (r: Bytes)
    requires |ram| == INFO_LEN && AuthSized(a)
    ensures |r| == INFO_LEN
  {
    Put(Put(Put(Put(ram, DEVID, a.devId), CODEID, a.authCodeId), CODE, a.authCode), UID, a.uidHash)
  }

  lemma AuthOfPut(ram: Bytes, a: AuthInfo)
    requires |ram| == INFO_LEN && AuthSized(a)
    ensures AuthOf(PutAuth(ram, a)) == a && PutAuth(ram, a)[1] == ram[1]
  {
    var r1 := Put(ram, DEVID, a.devId);
    var r2 := Put(r1, CODEID, a.authCodeId);
    var r3 := Put(r2, CODE, a.authCode);
    SlicePut(ram, DEVID, a.devId);
    SlicePut(r1, CODEID, a.authCodeId);
    SlicePut(r2, CODE, a.authCode);
    SlicePut(r3, UID, a.uidHash);
    SlicePutOther(r1, CODEID, a.authCodeId, DEVID);
    SlicePutOther(r2, CODE, a.authCode, DEVID);
    SlicePutOther(r3, UID, a.uidHash, DEVID);
    SlicePutOther(r2, CODE, a.authCode, CODEID);
    SlicePutOther(r3, UID, a.uidHash, CODEID);
    SlicePutOther(r3, UID, a.uidHash, CODE);
  }

  // ----- the configuration and what is done to it -----

  /** RAM, the length field of the item that mirrors it, the backend, and whether the item is registered with
      the store. */
  datatype Config = Config(ram: Bytes, len: nat, kv: Kv, registered: bool)

  predicate ConfigOk(s: Config) {
    |s.ram| == INFO_LEN && s.len <= INFO_LEN
  }

  function ItemOf(s: Config): (i: Item)
    requires ConfigOk(s)
    ensures ItemOk(i)
  {
    Item(0, Some(CONFIG_NAME), Encrypt, Some(s.ram), s.len, INFO_LEN)
  }

  /** One attempt to save: the salt drawn and what goes wrong. */
  datatype Attempt = Attempt(salt: Bytes, w: WriteFaults, r: ReadFaults)

  datatype Outcome = Outcome(config: Config, status: Status)

  /** ConfigInfoSave: the store refuses the commit of an item that is not registered. */
  function Save(c: Crypto, s: Config, a: Attempt): (t: Outcome)
    requires ConfigOk(s)
    ensures ConfigOk(t.config)
  {
    var s' := s.(ram := s.ram[0 := DATA_VER], len := INFO_LEN);
    if !s.registered then Outcome(s', Failed(InvalidKey))
    else
      var r := Write(c, ItemOf(s'), s.kv, a.salt, a.w, a.r);
      WriteSized(c, ItemOf(s'), s.kv, a.salt, a.w, a.r);
      Outcome(Config(r.item.buffer.value, r.item.len, r.kv, true), r.status)
  }

  function SaveAuth(c: Crypto, s: Config, info: AuthInfo, a: Attempt): (t: Outcome)
    requires ConfigOk(s) && AuthSized(info)
    ensures ConfigOk(t.config)
  {
    Save(c, s.(ram := PutAuth(s.ram, info)), a)
  }

  function Terminate(ram: Bytes): (r: Bytes)
    requires |ram| == INFO_LEN
    ensures |r| == INFO_LEN
  {
    ram[42 := 0][107 := 0][140 := 0]
  }

  /** A restart: RAM is zeroed, the item registered and pulled, and strings are terminated. A failure to
      register ends it early and leaves the item unregistered; a failure to pull is only logged. */
  function Restart(c: Crypto, kv: Kv, reg: bool, f: ReadFaults): (t: Config)
    ensures ConfigOk(t)
  {
    var s := Config(Zeros(INFO_LEN), INFO_LEN, kv, !reg);
    if reg then s
    else
      var r := Read(c, ItemOf(s), kv, f);
      ReadKeeps(c, ItemOf(s), kv, f);
      Config(Terminate(r.item.buffer.value), r.item.len, kv, true)
  }

  /** The JSON object of a request: the strings it has. */
  datatype Request = Request(
    devId: Option<Bytes>, authCode: Option<Bytes>, authCodeId: Option<Bytes>, uidHash: Option<Bytes>)

  predicate Fits(str: Option<Bytes>, size: nat) {
    str.Some? && |str.value| < size
  }

  function Parse(q: Request): (r: Option<AuthInfo>)
    ensures r.Some? ==> AuthSized(r.value) && AuthTerminated(r.value)
  {
    if !Fits(q.devId, DEVID.size) || !Fits(q.authCode, 2 * CODE.size + 1) || !Fits(q.authCodeId, CODEID.size) then None
    else
      var hex := q.authCode.value;
      if !Hex.Decodes(true, |hex|, true, CODE.size) || !Hex.AllHex(hex) then None
      else
        var code := Hex.Decoded(hex, |hex| / 2);
        Some(AuthInfo(
          StrField(q.devId.value, DEVID.size),
          if Fits(q.uidHash, UID.size) then StrField(q.uidHash.value, UID.size) else Zeros(UID.size),
          StrField(q.authCodeId.value, CODEID.size),
          code + Zeros(CODE.size - |code|)))
  }

  lemma StrFieldIs(str: Bytes, size: nat)
    requires |str| < size && NoNul(str)
    ensures CStr(StrField(str, size)) == str
  {
    CStrIs(StrField(str, size), str);
  }

  /** A request is taken if and only if its three strings are there and fit and the code is hexadecimal;
      the strings then read back as they were sent, the code is decoded and padded with zeros, and a
      uidHash that is missing or too long counts as none. */
  lemma ParseIs(q: Request)
    requires q.devId.Some? ==> NoNul(q.devId.value)
    requires q.authCodeId.Some? ==> NoNul(q.authCodeId.value)
    requires q.uidHash.Some? ==> NoNul(q.uidHash.value)
    ensures Parse(q).Some? <==>
      && q.devId.Some? && |q.devId.value| <= 40 && q.authCodeId.Some? && |q.authCodeId.value| <= 32
      && q.authCode.Some? && 0 < |q.authCode.value| <= 32 && |q.authCode.value| % 2 == 0 && Hex.AllHex(q.authCode.value)
    ensures Parse(q).Some? ==>
      var p, code := Parse(q).value, q.authCode.value;
      && CStr(p.devId) == q.devId.value && CStr(p.authCodeId) == q.authCodeId.value
      && CStr(p.uidHash) == (if q.uidHash.Some? && |q.uidHash.value| <= 64 then q.uidHash.value else [])
      && p.authCode[..|code| / 2] == Hex.Decoded(code, |code| / 2)
      && forall k :: |code| / 2 <= k < |p.authCode| ==> p.authCode[k] == 0
  {
    if Parse(q).Some? {
      StrFieldIs(q.devId.value, DEVID.size);
      StrFieldIs(q.authCodeId.value, CODEID.size);
      if Fits(q.uidHash, UID.size) { StrFieldIs(q.uidHash.value, UID.size); } else { CStrIs(Zeros(UID.size), []); }
    }
  }

  /** The stored uidHash stands in the way of the received one. */
  predicate Refused(current: AuthInfo, received: AuthInfo) {
    CStr(current.uidHash) != [] && CStr(received.uidHash) != CStr(current.uidHash)
  }

  datatype Step =
    | StoreAuth(info: AuthInfo, a: Attempt)   // ConfigSaveAuthInfo
    | Receive(q: Request, a: Attempt)         // DeviceServiceRecvAuthInfo
    | Clear(a: Attempt)                       // ConfigClearAuthInfo
    | Revoke(flag: Byte, a: Attempt)          // SetRevokeFlag, ClearRevokeFlag
    | PowerCycle(reg: bool, f: ReadFaults)

  function Next(c: Crypto, s: Config, step: Step): (t: Outcome)
    requires ConfigOk(s) && (step.StoreAuth? ==> AuthSized(step.info))
    ensures ConfigOk(t.config)
  {
    match step
    case StoreAuth(info, a) => SaveAuth(c, s, info, a)
    case Receive(q, a) =>
      var p := Parse(q);
      if p.None? then Outcome(s, Failed(ParamInvalid))
      else if Refused(AuthOf(s.ram), p.value) then Outcome(s, Failed(InvalidKey))
      else SaveAuth(c, s, p.value, a)
    case Clear(a) => SaveAuth(c, s, NoAuth(), a)
    case Revoke(flag, a) => Save(c, s.(ram := Put(s.ram, REVOKE, [flag])), a)
    case PowerCycle(reg, f) => Outcome(Restart(c, s.kv, reg, f), if reg then Failed(Calloc) else Done)
  }

  predicate Legal(step: Step) {
    match step
    case StoreAuth(info, a) => AuthSized(info) && AuthTerminated(info) && |a.salt| == SALT_LEN
    case PowerCycle(_, _) => true
    case _ => |step.a.salt| == SALT_LEN
  }

  // ----- saving -----

  /** The backend holds what is in RAM. */
  predicate Synced(c: Crypto, s: Config) {
    CONFIG_NAME in s.kv && Holds(c, Encrypt, s.kv[CONFIG_NAME], s.ram)
  }

  /** The save got as far as setting the key. */
  predicate Reached(a: Attempt) {
    !SealFaulty(Encrypt, a.w) && a.w.kvSet.None?
  }

  /** The save set the key, and the decryption of its read-back failed over RAM. */
  predicate SpoilsRam(a: Attempt) {
    Reached(a) && Spoils(Encrypt, a.r)
  }

  /** RAM after a save, if it was this before. */
  function AfterSave(ram: Bytes, a: Attempt): (r: Bytes)
    requires |ram| == INFO_LEN
    ensures |r| == INFO_LEN
  {
    if SpoilsRam(a) then Overlay(ram, Front(a.r.left, INFO_LEN)) else ram
  }

  lemma SaveIs(c: Crypto, s: Config, a: Attempt)
    requires Lawful(c) && ConfigOk(s) && |a.salt| == SALT_LEN
    ensures var t := Save(c, s, a);
      && t.config.ram == (if s.registered then AfterSave(s.ram[0 := DATA_VER], a) else s.ram[0 := DATA_VER])
      && t.config.len == INFO_LEN && t.config.registered == s.registered
      && (t.status.Done? ==> t.config.ram == s.ram[0 := DATA_VER] && Synced(c, t.config))
      && (t.status.Done? <==> s.registered && !WriteFaulty(Encrypt, a.w, a.r))
  {
    var s' := s.(ram := s.ram[0 := DATA_VER], len := INFO_LEN);
    WriteKeeps(c, ItemOf(s'), s.kv, a.salt, a.w, a.r);
    assert s'.ram[..INFO_LEN] == s'.ram;
  }

  lemma VersionApart(ram: Bytes)
    requires |ram| == INFO_LEN
    ensures AuthOf(ram[0 := DATA_VER]) == AuthOf(ram)
  {
    var r := ram[0 := DATA_VER];
    assert Slice(r, DEVID) == Slice(ram, DEVID) && Slice(r, UID) == Slice(ram, UID);
    assert Slice(r, CODEID) == Slice(ram, CODEID) && Slice(r, CODE) == Slice(ram, CODE);
  }

  lemma RevokeApart(ram: Bytes, flag: Byte)
    requires |ram| == INFO_LEN
    ensures AuthOf(Put(ram, REVOKE, [flag])) == AuthOf(ram) && Put(ram, REVOKE, [flag])[1] == flag
  {
    SlicePutOther(ram, REVOKE, [flag], DEVID);
    SlicePutOther(ram, REVOKE, [flag], UID);
    SlicePutOther(ram, REVOKE, [flag], CODEID);
    SlicePutOther(ram, REVOKE, [flag], CODE);
  }

  /** The auth info in RAM after a save: the one saved, whether or not the save succeeds, unless the
      decryption of the read-back failed; then it is what that decryption left there, which can be any. */
  lemma SaveAuthIs(c: Crypto, s: Config, info: AuthInfo, a: Attempt)
    requires Lawful(c) && ConfigOk(s) && AuthSized(info) && |a.salt| == SALT_LEN
    ensures var t := SaveAuth(c, s, info, a);
      && (t.status.Done? || !s.registered || !SpoilsRam(a) ==> AuthOf(t.config.ram) == info)
      && (s.registered && SpoilsRam(a) && |a.r.left| >= INFO_LEN ==>
            AuthOf(t.config.ram) == AuthOf(a.r.left[..INFO_LEN]))
  {
    var ram := PutAuth(s.ram, info);
    SaveIs(c, s.(ram := ram), a);
    AuthOfPut(s.ram, info);
    VersionApart(ram);
    if SpoilsRam(a) && |a.r.left| >= INFO_LEN {
      assert Overlay(ram[0 := DATA_VER], a.r.left[..INFO_LEN]) == a.r.left[..INFO_LEN];
    }
  }

  // ----- restarting -----

  lemma TerminateSame(ram: Bytes)
    requires |ram| == INFO_LEN && AuthTerminated(AuthOf(ram))
    ensures Terminate(ram) == ram
  {
    var a := AuthOf(ram);
    assert a.devId[40] == ram[42] && a.uidHash[64] == ram[107] && a.authCodeId[32] == ram[140];
  }

  /** A restart of a synced device brings back RAM, its strings terminated. */
  lemma RestartSynced(c: Crypto, s: Config, f: ReadFaults)
    requires ConfigOk(s) && Synced(c, s) && !Faulty(Encrypt, f)
    ensures Restart(c, s.kv, false, f) == Config(Terminate(s.ram), INFO_LEN, s.kv, true)
  {
    var z := Config(Zeros(INFO_LEN), INFO_LEN, s.kv, true);
    ReadHeld(c, ItemOf(z), s.kv, f, s.ram);
    assert Overlay(z.ram, s.ram) == s.ram;
  }

  lemma RestartFresh(c: Crypto, kv: Kv, f: ReadFaults)
    requires CONFIG_NAME !in kv && !Faulty(Encrypt, f)
    ensures Restart(c, kv, false, f) == Config(Zeros(INFO_LEN), 0, kv, true)
  {
    assert Terminate(Zeros(INFO_LEN)) == Zeros(INFO_LEN);
  }

  function TerminateAuth(a: AuthInfo): AuthInfo
    requires AuthSized(a)
  {
    AuthInfo(a.devId[40 := 0], a.uidHash[64 := 0], a.authCodeId[32 := 0], a.authCode)
  }

  lemma AuthOfTerminate(ram: Bytes)
    requires |ram| == INFO_LEN
    ensures AuthOf(Terminate(ram)) == TerminateAuth(AuthOf(ram))
  {
    var r, a := Terminate(ram), AuthOf(ram);
    assert Slice(r, DEVID) == a.devId[40 := 0];
    assert Slice(r, UID) == a.uidHash[64 := 0];
    assert Slice(r, CODEID) == a.authCodeId[32 := 0];
    assert Slice(r, CODE) == a.authCode;
  }

  /** After a successful save a restart brings back what was saved, with its strings terminated: so
      exactly what was saved if and only if its strings were. */
  lemma SaveThenRestart(c: Crypto, s: Config, info: AuthInfo, a: Attempt, f: ReadFaults)
    requires Lawful(c) && ConfigOk(s) && AuthSized(info) && |a.salt| == SALT_LEN
    requires SaveAuth(c, s, info, a).status.Done? && !Faulty(Encrypt, f)
    ensures var t := Restart(c, SaveAuth(c, s, info, a).config.kv, false, f);
      AuthOf(t.ram) == TerminateAuth(info) && (AuthOf(t.ram) == info <==> AuthTerminated(info))
  {
    var t := SaveAuth(c, s, info, a).config;
    SaveIs(c, s.(ram := PutAuth(s.ram, info)), a);
    SaveAuthIs(c, s, info, a);
    RestartSynced(c, t, f);
    AuthOfTerminate(t.ram);
    TerminatedIs(info.devId);
    TerminatedIs(info.uidHash);
    TerminatedIs(info.authCodeId);
  }

  /** A flag that is set changes the flag and the version in RAM and nothing else, whether or not the save
      succeeds, unless its read-back fails over RAM; and if it succeeds a restart brings that back. */
  lemma RevokeThenRestart(c: Crypto, s: Config, flag: Byte, a: Attempt, f: ReadFaults)
    requires Lawful(c) && ConfigOk(s) && |a.salt| == SALT_LEN && !Faulty(Encrypt, f)
    ensures var t, ram := Next(c, s, Revoke(flag, a)), s.ram[0 := 1][1 := flag];
      && (t.status.Done? <==> s.registered && !WriteFaulty(Encrypt, a.w, a.r))
      && (!s.registered || !SpoilsRam(a) ==> t.config.ram == ram)
      && (t.status.Done? ==> t.config.ram == ram && Restart(c, t.config.kv, false, f).ram == Terminate(ram))
  {
    var t := Next(c, s, Revoke(flag, a));
    assert Put(s.ram, REVOKE, [flag]) == s.ram[1 := flag];
    assert s.ram[1 := flag][0 := DATA_VER] == s.ram[0 := DATA_VER][1 := flag];
    SaveIs(c, s.(ram := s.ram[1 := flag]), a);
    if t.status.Done? { RestartSynced(c, t.config, f); }
  }

  lemma TerminatedIs(b: Bytes)
    requires |b| > 0
    ensures b[|b| - 1 := 0] == b <==> Terminated(b)
  {
    assert b[|b| - 1 := 0][|b| - 1] == 0;
  }
}
