/** config_info.c and config_authinfo.c as they change the configuration structure in place. */
module ConfigInfo {
  import opened Common
  import opened StoreItem
  import opened DeviceConfig
  import opened CString

  datatype Part = Part(key: Key, data: Bytes)

  /** The fields of the auth info in the order in which they are saved. */
  function Parts(a: AuthInfo): seq<Part> {
    [Part(DeviceId, a.devId), Part(AuthCodeId, a.authCodeId), Part(AuthCode, a.authCode), Part(UidHash, a.uidHash)]
  }

  class ConfigInfo {
    const ram: array<Byte>
    var len: nat
    var kv: Kv
    var registered: bool

    ghost predicate Valid()
      reads this
    {
      ram.Length == INFO_LEN && len <= INFO_LEN
    }

    ghost function View(): Config
      reads this, ram
    {
      Config(ram[..], len, kv, registered)
    }

    /** ConfigInfoInit on a device that was just powered up. */
    constructor (c: Crypto, kv: Kv, reg: bool, f: ReadFaults)
      ensures Valid() && fresh(ram) && View() == Restart(c, kv, reg, f)
    {
      ram := new Byte[INFO_LEN](_ => 0);
      len, this.kv, registered := INFO_LEN, kv, !reg;
      new;
      assert ram[..] == Zeros(INFO_LEN);
      if !reg {
        var i := Item(0, Some(CONFIG_NAME), Encrypt, Some(ram[..]), len, INFO_LEN);
        ReadKeeps(c, i, kv, f);
        var r := Read(c, i, kv, f);
        CopyAt(0, r.item.buffer.value);
        len := r.item.len;
        ram[DEVID.offset + DEVID.size - 1] := 0;
        ram[UID.offset + UID.size - 1] := 0;
        ram[CODEID.offset + CODEID.size - 1] := 0;
      }
    }

    /** Copies bytes into the structure. */
    method CopyAt(offset: nat, data: Bytes)
      requires Valid() && offset + |data| <= INFO_LEN
      modifies ram
      ensures ram[..] == old(ram[..offset]) + data + old(ram[offset + |data|..])
    {
      for k := 0 to |data|
        invariant forall j :: 0 <= j < k ==> ram[offset + j] == data[j]
        invariant forall j :: 0 <= j < INFO_LEN && !(offset <= j < offset + k) ==> ram[j] == old(ram[j])
      {
        ram[offset + k] := data[k];
      }
    }

    method FindField(key: Key) returns (f: Option<Field>)
      ensures f == FieldOf(key)
      ensures f.Some? ==> InTable(f.value) && f.value in FIELDS && f.value.key == key
      ensures f.None? ==> forall g :: g in FIELDS ==> g.key != key
    {
      assert FIELDS[0] == REVOKE && FIELDS[1] == DEVID && FIELDS[2] == UID;
      assert FIELDS[3] == CODEID && FIELDS[4] == CODE && FIELDS[5] == NETINFO;
      for i := 0 to |FIELDS|
        invariant forall k :: 0 <= k < i ==> FIELDS[k].key != key
      {
        if FIELDS[i].key == key {
          return Some(FIELDS[i]);
        }
      }
      f := None;
    }

    /** Gives the whole field, to a caller with room for it. */
    method Get(key: Key, room: nat) returns (data: Result<Bytes, Error>)
      requires Valid()
      ensures data.Ok? <==> FieldOf(key).Some? && FieldOf(key).value.size <= room
      ensures data.Ok? ==> InTable(FieldOf(key).value) && data.value == Slice(ram[..], FieldOf(key).value)
    {
      var f := FindField(key);
      if room == 0 || f.None? || room < f.value.size {
        return Err(ParamInvalid);
      }
      data := Ok(ram[f.value.offset..f.value.offset + f.value.size]);
    }

    /** Overwrites the front of the field with the data. */
    method Put(key: Key, data: Bytes) returns (status: Status)
      requires Valid()
      modifies ram
      ensures status.Done? <==> FieldOf(key).Some? && 0 < |data| <= FieldOf(key).value.size
      ensures status.Done? ==> InTable(FieldOf(key).value)
      ensures status.Done? ==> ram[..] == DeviceConfig.Put(old(ram[..]), FieldOf(key).value, data)
      ensures status.Failed? ==> ram[..] == old(ram[..])
    {
      var f := FindField(key);
      if |data| == 0 || f.None? || |data| > f.value.size {
        return Failed(ParamInvalid);
      }
      CopyAt(f.value.offset, data);
      assert old(ram[..f.value.offset]) == old(ram[..])[..f.value.offset];
      status := Done;
    }

    /** Zeroes the field. */
    method ClearField(key: Key) returns (status: Status)
      requires Valid()
      modifies ram
      ensures status.Done? <==> FieldOf(key).Some?
      ensures status.Done? ==>
        var f := FieldOf(key).value; InTable(f) && ram[..] == DeviceConfig.Put(old(ram[..]), f, Zeros(f.size))
      ensures status.Failed? ==> ram[..] == old(ram[..])
    {
      var f := FindField(key);
      if f.None? {
        return Failed(ParamInvalid);
      }
      CopyAt(f.value.offset, Zeros(f.value.size));
      assert old(ram[..f.value.offset]) == old(ram[..])[..f.value.offset];
      status := Done;
    }

    method SaveInfo(c: Crypto, a: Attempt) returns (status: Status)
      requires Valid()
      modifies this, ram
      ensures Valid() && Outcome(View(), status) == Save(c, old(View()), a)
    {
      ram[0] := DATA_VER;
      len := INFO_LEN;
      var i := Item(0, Some(CONFIG_NAME), Encrypt, Some(ram[..]), len, INFO_LEN);
      assert ram[..] == old(ram[..])[0 := DATA_VER];
      if !registered {
        return Failed(InvalidKey);
      }
      WriteSized(c, i, kv, a.salt, a.w, a.r);
      var r := Write(c, i, kv, a.salt, a.w, a.r);
      CopyAt(0, r.item.buffer.value);
      len, kv := r.item.len, r.kv;
      status := r.status;
    }

    /** ConfigSaveAuthInfo. */
    method SaveAuthInfo(c: Crypto, info: AuthInfo, a: Attempt) returns (status: Status)
      requires Valid() && AuthSized(info)
      modifies this, ram
      ensures Valid() && Outcome(View(), status) == SaveAuth(c, old(View()), info, a)
    {
      var parts := Parts(info);
      for i := 0 to |parts|
        invariant Valid() && len == old(len) && kv == old(kv) && registered == old(registered)
        invariant ram[..] == PutSome(old(ram[..]), info, i)
      {
        var r := Put(parts[i].key, parts[i].data);
        if r.Failed? {
          return r;
        }
      }
      status := SaveInfo(c, a);
    }

    /** ConfigGetAuthInfo. */
    method GetAuthInfo() returns (info: AuthInfo)
      requires Valid()
      ensures info == AuthOf(ram[..])
    {
      var devId := Get(DeviceId, DEVID.size);
      var codeId := Get(AuthCodeId, CODEID.size);
      var code := Get(AuthCode, CODE.size);
      var uid := Get(UidHash, UID.size);
      info := AuthInfo(devId.value, uid.value, codeId.value, code.value);
    }

    /** DeviceServiceRecvAuthInfo. */
    method RecvAuthInfo(c: Crypto, q: Request, a: Attempt) returns (status: Status)
      requires Valid()
      modifies this, ram
      ensures Valid() && Outcome(View(), status) == Next(c, old(View()), Receive(q, a))
      ensures var p, uid := Parse(q), CStr(Slice(old(ram[..]), UID));
        if p.Some? && (uid == [] || CStr(p.value.uidHash) == uid) then
          Outcome(View(), status) == SaveAuth(c, old(View()), p.value, a)
        else
          View() == old(View()) && status == Failed(if p.None? then ParamInvalid else InvalidKey)
    {
      var received := Parse(q);
      if received.None? {
        return Failed(ParamInvalid);
      }
      var current := GetAuthInfo();
      if CStr(current.uidHash) != [] && CStr(received.value.uidHash) != CStr(current.uidHash) {
        return Failed(InvalidKey);
      }
      status := SaveAuthInfo(c, received.value, a);
    }

    method ClearAuthFields()
      requires Valid()
      modifies ram
      ensures ram[..] == PutAuth(old(ram[..]), NoAuth())
    {
      var status := ClearField(DeviceId);
      status := ClearField(AuthCodeId);
      status := ClearField(AuthCode);
      status := ClearField(UidHash);
    }

    /** ConfigClearAuthInfo. */
    method ClearAuthInfo(c: Crypto, a: Attempt) returns (status: Status)
      requires Valid()
      modifies this, ram
      ensures Valid() && Outcome(View(), status) == Next(c, old(View()), Clear(a))
    {
      ClearAuthFields();
      status := SaveInfo(c, a);
    }
  }

  /** The first i parts have been set. */
  function PutSome(ram: Bytes, a: AuthInfo, i: nat): (r: Bytes)
    requires |ram| == INFO_LEN && AuthSized(a)
    ensures |r| == INFO_LEN && (i == 4 ==> r == PutAuth(ram, a))
  {
    var r1 := Put(ram, DEVID, a.devId);
    var r2 := Put(r1, CODEID, a.authCodeId);
    var r3 := Put(r2, CODE, a.authCode);
    if i == 0 then ram else if i == 1 then r1 else if i == 2 then r2 else if i == 3 then r3 else Put(r3, UID, a.uidHash)
  }
}
