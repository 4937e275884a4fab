/** One item of the secure store: how its value is framed, sealed and read back. */
module StoreItem {
  import opened Common

  /** The key-value backend: an honest map. */
  type Kv = map<string, Bytes>

  // ----- the primitives -----

  datatype Sealed = Sealed(tag: Bytes, cipher: Bytes)

  /** HKDF of RFC 5869 with the device's own secret, HMAC-SHA256 of RFC 2104 and AES-GCM of NIST
      SP 800-38D, as functions about which nothing is known but the laws below. */
  datatype Crypto = Crypto(
    hkdf: Bytes -> Bytes,
    hmac: (Bytes, Bytes) -> Bytes,
    seal: (Bytes, Bytes, Bytes) -> Sealed,
    open: (Bytes, Bytes, Bytes, Bytes) -> Option<Bytes>)

  const KEY_LEN := 32
  const MAC_LEN := 32
  const GCM_KEY_LEN := 16
  const TAG_LEN := 16
  const SALT_LEN := 16

  ghost predicate Lawful(c: Crypto) {
    && (forall salt :: |c.hkdf(salt)| == KEY_LEN)
    && (forall key, data :: |c.hmac(key, data)| == MAC_LEN)
    && (forall key, iv, plain :: LawfulSeal(c, key, iv, plain, c.seal(key, iv, plain)))
    && (forall key, iv, tag, cipher :: LawfulOpen(cipher, c.open(key, iv, tag, cipher)))
  }

  predicate LawfulSeal(c: Crypto, key: Bytes, iv: Bytes, plain: Bytes, s: Sealed) {
    |s.tag| == TAG_LEN && |s.cipher| == |plain| && c.open(key, iv, s.tag, s.cipher) == Some(plain)
  }

  predicate LawfulOpen(cipher: Bytes, plain: Option<Bytes>) {
    plain.Some? ==> |plain.value| == |cipher|
  }

  // ----- the frame: version, three bytes of padding, salt, mac, length, payload -----

  const HEADER_LEN := 56
  const VERSION: Byte := 1

  function Le32(n: nat): (r: Bytes)
    requires n < TWO32
    ensures |r| == 4
  {
    [n % 256, n / 256 % 256, n / 65536 % 256, n / 16777216]
  }

  function FromLe32(b: Bytes): nat
    requires |b| == 4
  {
    (b[0] as int) + 256 * (b[1] as int) + 65536 * (b[2] as int) + 16777216 * (b[3] as int)
  }

  lemma Le32RoundTrip(n: nat)
    requires n < TWO32
    ensures FromLe32(Le32(n)) == n
  {
    assert n / 65536 == n / 256 / 256 && n / 16777216 == n / 65536 / 256;
  }

  function Header(salt: Bytes, mac: Bytes, len: nat): Bytes
    requires len < TWO32
  {
    [VERSION, 0, 0, 0] + salt + mac + Le32(len)
  }

  function SaltOf(b: Bytes): Bytes
    requires |b| >= HEADER_LEN
  {
    b[4..20]
  }

  function MacOf(b: Bytes): Bytes
    requires |b| >= HEADER_LEN
  {
    b[20..52]
  }

  function LenOf(b: Bytes): nat
    requires |b| >= HEADER_LEN
  {
    FromLe32(b[52..56])
  }

  function PayloadOf(b: Bytes): Bytes
    requires |b| >= HEADER_LEN
  {
    b[HEADER_LEN..]
  }

  lemma FrameParses(salt: Bytes, mac: Bytes, payload: Bytes)
    requires |salt| == SALT_LEN && |mac| == MAC_LEN && |payload| < TWO32
    ensures var b := Header(salt, mac, |payload|) + payload;
      && |b| == HEADER_LEN + |payload| && b[0] == VERSION
      && SaltOf(b) == salt && MacOf(b) == mac && LenOf(b) == |payload| && PayloadOf(b) == payload
  {
    var b, l := Header(salt, mac, |payload|) + payload, Le32(|payload|);
    assert b[4..20] == salt;
    assert b[20..52] == mac;
    assert b[52..56] == l;
    assert b[56..] == payload;
    Le32RoundTrip(|payload|);
  }

  // ----- items -----

  /** Other stands for any mode value outside the three. */
  datatype Mode = Plain | Verify | Encrypt | Other

  datatype Item = Item(keyInt: int, keyChar: Option<string>, mode: Mode, buffer: Option<Bytes>, len: nat, size: nat)

  /** Every registered item: the buffer has the declared size and the value fits it. */
  predicate ItemOk(i: Item) {
    i.len <= i.size < TWO32 && (i.buffer.Some? ==> |i.buffer.value| == i.size)
  }

  function Value(i: Item): Bytes
    requires ItemOk(i) && i.buffer.Some?
  {
    i.buffer.value[..i.len]
  }

  datatype Error =
    | ParamInvalid | InvalidKey | InvalidBufSize | InvalidItem | InvalidKvLen | InvalidVersion | InvalidCipher
    | InvalidMode | IntegrityCheck | MacNotSame | MemCopy | Calloc | KvError | CryptoError

  datatype Status = Done | Failed(error: Error)

  /** What goes wrong in a read besides the data: length query, allocation, backend, key derivation,
      HMAC and AES-GCM; and what a read that fails half-way leaves in the buffer. */
  datatype ReadFaults = ReadFaults(getLen: bool, alloc: bool, get: bool, hkdf: bool, hmac: bool, gcm: bool, left: Bytes)

  /** What goes wrong in a write; a backend that fails to set a key may leave anything under it. */
  datatype WriteFaults = WriteFaults(alloc: bool, hkdf: bool, hmac: bool, gcm: bool, kvSet: Option<Option<Bytes>>)

  datatype ReadResult = ReadResult(item: Item, status: Status)

  datatype WriteResult = WriteResult(item: Item, kv: Kv, status: Status)

  /** Copies data to the front of a buffer. */
  function Overlay(buffer: Bytes, data: Bytes): (r: Bytes)
    requires |data| <= |buffer|
    ensures |r| == |buffer|
  {
    data + buffer[|data|..]
  }

  function Fill(i: Item, data: Bytes): Item
    requires ItemOk(i) && i.buffer.Some? && |data| <= i.size
  {
    i.(buffer := Some(Overlay(i.buffer.value, data)), len := |data|)
  }

  function Front(data: Bytes, room: nat): (r: Bytes)
    ensures |r| <= room
  {
    if |data| <= room then data else data[..room]
  }

  /** A read that failed after it began to write to the buffer: it may have left anything in the front
      part that it was to fill. */
  function Spoil(i: Item, left: Bytes, room: nat): Item
    requires ItemOk(i) && i.buffer.Some? && room <= i.size
  {
    i.(buffer := Some(Overlay(i.buffer.value, Front(left, room))))
  }

  /** CipherV1HmacVerifyAndCopy and CipherV1AesGcmDecrypt. */
  function OpenPayload(c: Crypto, i: Item, b: Bytes, f: ReadFaults): ReadResult
    requires ItemOk(i) && i.buffer.Some? && |b| >= HEADER_LEN && |PayloadOf(b)| <= i.size
  {
    var key, payload := c.hkdf(SaltOf(b)), PayloadOf(b);
    match i.mode
    case Verify =>
      if f.hmac then ReadResult(i, Failed(CryptoError))
      else if c.hmac(key, payload) != MacOf(b) then ReadResult(i, Failed(IntegrityCheck))
      else if i.size == 0 then ReadResult(i, Failed(InvalidBufSize))
      else ReadResult(Fill(i, payload), Done)
    case Encrypt =>
      if |payload| == 0 || |key| < GCM_KEY_LEN then ReadResult(i, Failed(CryptoError))
      else
        var plain := c.open(key[..GCM_KEY_LEN], key[GCM_KEY_LEN..], MacOf(b)[..TAG_LEN], payload);
        if f.gcm || plain.None? || |plain.value| != |payload|
        then ReadResult(Spoil(i, f.left, |payload|), Failed(CryptoError))
        else ReadResult(Fill(i, plain.value), Done)
    case _ => ReadResult(i, Failed(InvalidMode))
  }

  /** CipherV1DecryptAndVerify. The expected mac, if any, is that of the data just written. */
  function OpenFrame(c: Crypto, i: Item, b: Bytes, expected: Option<Bytes>, f: ReadFaults): ReadResult
    requires ItemOk(i) && i.buffer.Some?
  {
    if |b| < HEADER_LEN || |PayloadOf(b)| != LenOf(b) || |PayloadOf(b)| > i.size
    then ReadResult(i, Failed(InvalidCipher))
    else if f.hkdf then ReadResult(i, Failed(CryptoError))
    else
      var r := OpenPayload(c, i, b, f);
      if r.status.Done? && expected.Some? && expected.value != MacOf(b) then r.(status := Failed(MacNotSame)) else r
  }

  /** StoreItemReadCipher. */
  function ReadCipher(c: Crypto, i: Item, kv: Kv, expected: Option<Bytes>, f: ReadFaults): ReadResult
    requires ItemOk(i) && i.buffer.Some? && i.keyChar.Some?
  {
    var b := if i.keyChar.value in kv then kv[i.keyChar.value] else [];
    if f.getLen then ReadResult(i, Failed(KvError))
    else if |b| == 0 then ReadResult(i.(len := 0), Done)
    else if |b| > i.size + HEADER_LEN then ReadResult(i, Failed(InvalidKvLen))
    else if f.alloc then ReadResult(i, Failed(Calloc))
    else if f.get then ReadResult(i, Failed(KvError))
    else if b[0] != VERSION then ReadResult(i, Failed(InvalidVersion))
    else OpenFrame(c, i, b, expected, f)
  }

  /** StoreItemRead. */
  function Read(c: Crypto, i: Item, kv: Kv, f: ReadFaults): ReadResult
    requires ItemOk(i)
  {
    if i.buffer.None? || i.keyChar.None? || i.size == 0 then ReadResult(i, Failed(InvalidItem))
    else if !i.mode.Plain? then ReadCipher(c, i, kv, None, f)
    else if i.keyChar.value !in kv || |kv[i.keyChar.value]| > i.size then ReadResult(i, Failed(KvError))
    else if f.get then ReadResult(Spoil(i, f.left, i.size), Failed(KvError))
    else ReadResult(Fill(i, kv[i.keyChar.value]), Done)
  }

  function KvSet(kv: Kv, key: string, value: Bytes, fault: Option<Option<Bytes>>): (Kv, Status) {
    if |value| == 0 then (kv, Failed(ParamInvalid))
    else if fault.Some? then (if fault.value.Some? then kv[key := fault.value.value] else kv - {key}, Failed(KvError))
    else (kv[key := value], Done)
  }

  /** The mac field and the payload that CipherV1GenHmacAndCopy or CipherV1Encrypt make. */
  function SealPayload(c: Crypto, i: Item, key: Bytes, f: WriteFaults): Result<Sealed, Error>
    requires ItemOk(i) && i.buffer.Some?
  {
    match i.mode
    case Verify =>
      if i.len == 0 then Err(MemCopy)
      else if f.hmac then Err(CryptoError)
      else Ok(Sealed(c.hmac(key, Value(i)), Value(i)))
    case Encrypt =>
      if f.gcm || i.len == 0 || |key| < GCM_KEY_LEN then Err(CryptoError)
      else
        var s := c.seal(key[..GCM_KEY_LEN], key[GCM_KEY_LEN..], Value(i));
        Ok(Sealed(s.tag + Zeros(MAC_LEN - TAG_LEN), s.cipher))
    case _ => Err(InvalidMode)
  }

  /** StoreItemWriteCipher; salt is what the random source gave. */
  function WriteCipher(c: Crypto, i: Item, kv: Kv, salt: Bytes, w: WriteFaults, r: ReadFaults): WriteResult
    requires ItemOk(i) && i.buffer.Some? && i.keyChar.Some?
  {
    if i.len > TWO32 - 1 - HEADER_LEN then WriteResult(i, kv, Failed(InvalidItem))
    else if w.alloc then WriteResult(i, kv, Failed(Calloc))
    else if w.hkdf then WriteResult(i, kv, Failed(CryptoError))
    else
      match SealPayload(c, i, c.hkdf(salt), w)
      case Err(e) => WriteResult(i, kv, Failed(e))
      case Ok(s) =>
        var (kv', status) := KvSet(kv, i.keyChar.value, Header(salt, s.tag, i.len) + s.cipher, w.kvSet);
        if status.Failed? then WriteResult(i, kv', status)
        else
          var back := ReadCipher(c, i, kv', Some(s.tag), r);
          WriteResult(back.item, kv', back.status)
  }

  /** StoreItemWrite. */
  function Write(c: Crypto, i: Item, kv: Kv, salt: Bytes, w: WriteFaults, r: ReadFaults): WriteResult
    requires ItemOk(i)
  {
    if i.buffer.None? || i.keyChar.None? then WriteResult(i, kv, Failed(InvalidItem))
    else if !i.mode.Plain? then WriteCipher(c, i, kv, salt, w, r)
    else
      var (kv', status) := KvSet(kv, i.keyChar.value, Value(i), w.kvSet);
      WriteResult(i, kv', status)
  }

  // ----- a value written is a value read -----

  /** The buffer and the name are there, and the buffer has room. */
  predicate Sound(i: Item) {
    i.buffer.Some? && i.keyChar.Some? && 0 < i.size
  }

  predicate Framed(b: Bytes, value: Bytes) {
    |b| == HEADER_LEN + |value| && b[0] == VERSION && LenOf(b) == |value|
  }

  /** The bytes under a key hold the value, for a mode and under the device's key. */
  predicate Holds(c: Crypto, mode: Mode, b: Bytes, value: Bytes) {
    match mode
    case Plain => b == value
    case Verify => Framed(b, value) && PayloadOf(b) == value && c.hmac(c.hkdf(SaltOf(b)), value) == MacOf(b)
    case Encrypt =>
      && 0 < |value| && Framed(b, value)
      && var key := c.hkdf(SaltOf(b));
         && |key| == KEY_LEN
         && c.open(key[..GCM_KEY_LEN], key[GCM_KEY_LEN..], MacOf(b)[..TAG_LEN], PayloadOf(b)) == Some(value)
    case Other => false
  }

  /** A read goes wrong for another reason than the data. */
  predicate Faulty(mode: Mode, f: ReadFaults) {
    if mode.Plain? then f.get
    else f.getLen || f.alloc || f.get || f.hkdf || if mode.Verify? then f.hmac else f.gcm
  }

  /** A decryption that fails of itself has begun to write to the buffer: it is the one step of a cipher
      read that can both fail and change RAM. */
  predicate Spoils(mode: Mode, f: ReadFaults) {
    mode.Encrypt? && !f.getLen && !f.alloc && !f.get && !f.hkdf && f.gcm
  }

  /** What a read that goes wrong makes of the item over a value that is held. */
  function Disturbed(i: Item, f: ReadFaults, value: Bytes): Item
    requires ItemOk(i) && i.buffer.Some? && |value| <= i.size
  {
    if i.mode.Plain? then Spoil(i, f.left, i.size)
    else if Spoils(i.mode, f) then Spoil(i, f.left, |value|)
    else i
  }

  /** Reading back what is held: it succeeds unless there is a fault, and a read that succeeds gives
      exactly the value and leaves the rest of the buffer as it was. One that fails leaves the item as it
      was, unless it is the backend, or the decryption, that failed while writing to the buffer. */
  lemma ReadHeld(c: Crypto, i: Item, kv: Kv, f: ReadFaults, value: Bytes)
    requires ItemOk(i) && Sound(i) && |value| <= i.size
    requires i.keyChar.value in kv && Holds(c, i.mode, kv[i.keyChar.value], value)
    ensures Read(c, i, kv, f).status.Done? <==> !Faulty(i.mode, f)
    ensures Read(c, i, kv, f).item == if Faulty(i.mode, f) then Disturbed(i, f, value) else Fill(i, value)
  {
    if !i.mode.Plain? { OpenHeld(c, i, kv[i.keyChar.value], None, f, value); }
  }

  lemma OpenHeld(c: Crypto, i: Item, b: Bytes, expected: Option<Bytes>, f: ReadFaults, value: Bytes)
    requires ItemOk(i) && i.buffer.Some? && 0 < i.size && !i.mode.Plain?
    requires |value| <= i.size && Holds(c, i.mode, b, value)
    requires expected.Some? ==> expected.value == MacOf(b)
    ensures OpenFrame(c, i, b, expected, f).status.Done? <==> !(f.hkdf || if i.mode.Verify? then f.hmac else f.gcm)
    ensures OpenFrame(c, i, b, expected, f).item ==
      if OpenFrame(c, i, b, expected, f).status.Done? then Fill(i, value)
      else if i.mode.Encrypt? && !f.hkdf then Spoil(i, f.left, |value|)
      else i
  {}

  /** A read of a non-empty entry that succeeds gives a value that the entry holds. */
  lemma ReadAuthentic(c: Crypto, i: Item, kv: Kv, f: ReadFaults)
    requires Lawful(c) && ItemOk(i) && Sound(i) && i.keyChar.value in kv && (i.mode.Plain? || kv[i.keyChar.value] != [])
    requires Read(c, i, kv, f).status.Done?
    ensures var t, b := Read(c, i, kv, f).item, kv[i.keyChar.value];
      && ItemOk(t) && t.buffer.Some? && Holds(c, i.mode, b, Value(t)) && |Value(t)| <= i.size && !Faulty(i.mode, f)
  {
    var b := kv[i.keyChar.value];
    if !i.mode.Plain? {
      assert OpenFrame(c, i, b, None, f).status.Done?;
      OpenAuthentic(c, i, b, f);
    }
  }

  lemma OpenAuthentic(c: Crypto, i: Item, b: Bytes, f: ReadFaults)
    requires Lawful(c) && ItemOk(i) && i.buffer.Some? && !i.mode.Plain? && |b| > 0 && b[0] == VERSION
    requires OpenFrame(c, i, b, None, f).status.Done?
    ensures var t := OpenFrame(c, i, b, None, f).item;
      ItemOk(t) && t.buffer.Some? && Holds(c, i.mode, b, Value(t)) && |Value(t)| <= i.size
  {
    var t := OpenFrame(c, i, b, None, f).item;
    assert i.mode.Verify? ==> t == Fill(i, PayloadOf(b)) && Value(t) == PayloadOf(b);
  }

  /** When a read succeeds, for every item and every content of the backend: the item is sound, and either the
      entry holds a value that fits and nothing outside fails, or the item is in a cipher mode, there is no
      entry or an empty one, and the length query works; the item is then empty. */
  lemma ReadIs(c: Crypto, i: Item, kv: Kv, f: ReadFaults)
    requires Lawful(c) && ItemOk(i)
    ensures var t := Read(c, i, kv, f);
      && (!Sound(i) ==> t == ReadResult(i, Failed(InvalidItem)))
      && (Sound(i) && i.keyChar.value in kv && (i.mode.Plain? || kv[i.keyChar.value] != []) ==>
            (t.status.Done? <==>
               !Faulty(i.mode, f) && exists v :: |v| <= i.size && Holds(c, i.mode, kv[i.keyChar.value], v)))
      && (Sound(i) && !i.mode.Plain? && (i.keyChar.value in kv ==> kv[i.keyChar.value] == []) ==>
            t == if f.getLen then ReadResult(i, Failed(KvError)) else ReadResult(i.(len := 0), Done))
      && (Sound(i) && i.mode.Plain? && i.keyChar.value !in kv ==> t == ReadResult(i, Failed(KvError)))
  {
    if Sound(i) && i.keyChar.value in kv && (i.mode.Plain? || kv[i.keyChar.value] != []) {
      if Read(c, i, kv, f).status.Done? { ReadAuthentic(c, i, kv, f); }
      if v :| |v| <= i.size && Holds(c, i.mode, kv[i.keyChar.value], v) { ReadHeld(c, i, kv, f, v); }
    }
  }

  /** A read with an expected mac succeeds if and only if it would without and the mac is the expected one. */
  lemma ExpectedMac(c: Crypto, i: Item, b: Bytes, mac: Bytes, f: ReadFaults)
    requires ItemOk(i) && i.buffer.Some? && |b| >= HEADER_LEN
    ensures OpenFrame(c, i, b, Some(mac), f).status.Done? <==>
      OpenFrame(c, i, b, None, f).status.Done? && mac == MacOf(b)
  {}

  /** What is sealed can be opened. */
  lemma SealHolds(c: Crypto, i: Item, salt: Bytes, w: WriteFaults)
    requires Lawful(c) && ItemOk(i) && i.buffer.Some? && |salt| == SALT_LEN
    requires SealPayload(c, i, c.hkdf(salt), w).Ok?
    ensures var s := SealPayload(c, i, c.hkdf(salt), w).value;
      |s.tag| == MAC_LEN && MacOf(Header(salt, s.tag, i.len) + s.cipher) == s.tag
      && Holds(c, i.mode, Header(salt, s.tag, i.len) + s.cipher, Value(i))
  {
    var key := c.hkdf(salt);
    var s := SealPayload(c, i, key, w).value;
    if i.mode.Encrypt? {
      var sealed := c.seal(key[..GCM_KEY_LEN], key[GCM_KEY_LEN..], Value(i));
      assert LawfulSeal(c, key[..GCM_KEY_LEN], key[GCM_KEY_LEN..], Value(i), sealed);
      assert (sealed.tag + Zeros(MAC_LEN - TAG_LEN))[..TAG_LEN] == sealed.tag;
    }
    FrameParses(salt, s.tag, s.cipher);
  }

  lemma SealSucceeds(c: Crypto, i: Item, salt: Bytes, w: WriteFaults)
    requires Lawful(c) && ItemOk(i) && i.buffer.Some? && !i.mode.Plain?
    ensures SealPayload(c, i, c.hkdf(salt), w).Ok? <==>
      0 < i.len && !i.mode.Other? && !(if i.mode.Verify? then w.hmac else w.gcm)
  {}

  lemma FillSame(i: Item)
    requires ItemOk(i) && i.buffer.Some?
    ensures Fill(i, Value(i)) == i
  {
    assert i.buffer.value == i.buffer.value[..i.len] + i.buffer.value[i.len..];
  }

  /** Two contents of the backend agree on every key but one. */
  predicate SameBut(kv: Kv, kv': Kv, key: Option<string>) {
    && (forall k :: k in kv && Some(k) != key ==> k in kv' && kv'[k] == kv[k])
    && (forall k :: k in kv' && Some(k) != key ==> k in kv)
  }

  /** The backend holds the value of the item. */
  predicate Saved(c: Crypto, i: Item, kv: Kv) {
    && ItemOk(i) && i.buffer.Some? && i.keyChar.Some? && i.keyChar.value in kv
    && Holds(c, i.mode, kv[i.keyChar.value], Value(i))
  }

  /** A write goes wrong before it sets the key. */
  predicate SealFaulty(mode: Mode, w: WriteFaults) {
    !mode.Plain? && (w.alloc || w.hkdf || if mode.Verify? then w.hmac else w.gcm)
  }

  /** A write goes wrong for another reason than the item. */
  predicate WriteFaulty(mode: Mode, w: WriteFaults, r: ReadFaults) {
    || w.kvSet.Some?
    || SealFaulty(mode, w)
    || (!mode.Plain? && Faulty(mode, r))
  }

  predicate Writable(i: Item) {
    && i.buffer.Some? && i.keyChar.Some? && 0 < i.len
    && (i.mode.Plain? || (!i.mode.Other? && i.len <= TWO32 - 1 - HEADER_LEN))
  }

  /** Reading back what was just written changes nothing in RAM, unless the decryption fails. */
  lemma ReadBack(c: Crypto, i: Item, kv: Kv, r: ReadFaults)
    requires ItemOk(i) && Sound(i) && !i.mode.Plain? && i.keyChar.value in kv
    requires Holds(c, i.mode, kv[i.keyChar.value], Value(i))
    ensures var t := ReadCipher(c, i, kv, Some(MacOf(kv[i.keyChar.value])), r);
      && (t.status.Done? <==> !Faulty(i.mode, r))
      && t.item == if Spoils(i.mode, r) then Spoil(i, r.left, i.len) else i
  {
    FillSame(i);
    OpenHeld(c, i, kv[i.keyChar.value], Some(MacOf(kv[i.keyChar.value])), r, Value(i));
  }

  /** What the write puts under the item's key, and what comes of it. */
  lemma PutFrame(c: Crypto, i: Item, kv: Kv, frame: Bytes, w: WriteFaults, r: ReadFaults)
    requires ItemOk(i) && Sound(i) && !i.mode.Plain? && Holds(c, i.mode, frame, Value(i))
    ensures var (kv', status) := KvSet(kv, i.keyChar.value, frame, w.kvSet);
      && SameBut(kv, kv', i.keyChar) && (status.Done? <==> w.kvSet.None?)
      && (status.Done? ==> Saved(c, i, kv'))
      && (status.Done? ==>
            ReadCipher(c, i, kv', Some(MacOf(frame)), r).item
            == if Spoils(i.mode, r) then Spoil(i, r.left, i.len) else i)
      && (status.Done? ==> (ReadCipher(c, i, kv', Some(MacOf(frame)), r).status.Done? <==> !Faulty(i.mode, r)))
  {
    if w.kvSet.None? { ReadBack(c, i, kv[i.keyChar.value := frame], r); }
  }

  /** RAM after a write: as it was, unless the write set the key and the decryption of the read-back then
      failed. */
  function Written(i: Item, w: WriteFaults, r: ReadFaults): Item
    requires ItemOk(i)
  {
    if Writable(i) && !SealFaulty(i.mode, w) && w.kvSet.None? && Spoils(i.mode, r) then Spoil(i, r.left, i.len) else i
  }

  lemma WriteCipherKeeps(c: Crypto, i: Item, kv: Kv, salt: Bytes, w: WriteFaults, r: ReadFaults)
    requires Lawful(c) && ItemOk(i) && |salt| == SALT_LEN && i.buffer.Some? && i.keyChar.Some? && !i.mode.Plain?
    ensures var t := WriteCipher(c, i, kv, salt, w, r);
      && t.item == Written(i, w, r) && SameBut(kv, t.kv, i.keyChar)
      && (t.status.Done? ==> Saved(c, i, t.kv))
      && (t.status.Done? <==> Writable(i) && !WriteFaulty(i.mode, w, r))
  {
    var sealed := SealPayload(c, i, c.hkdf(salt), w);
    SealSucceeds(c, i, salt, w);
    if sealed.Ok? {
      SealHolds(c, i, salt, w);
      PutFrame(c, i, kv, Header(salt, sealed.value.tag, i.len) + sealed.value.cipher, w, r);
    }
  }

  /** Every write: no key but the item's is touched; a write that succeeds, as it does unless something
      outside fails, has left the value under the item's key and RAM as it was; and one that fails leaves
      RAM as it was too, but for a read-back that fails in its decryption. */
  lemma WriteKeeps(c: Crypto, i: Item, kv: Kv, salt: Bytes, w: WriteFaults, r: ReadFaults)
    requires Lawful(c) && ItemOk(i) && |salt| == SALT_LEN
    ensures var t := Write(c, i, kv, salt, w, r);
      && t.item == Written(i, w, r) && SameBut(kv, t.kv, i.keyChar)
      && (t.status.Done? ==> Saved(c, i, t.kv))
      && (t.status.Done? <==> Writable(i) && !WriteFaulty(i.mode, w, r))
  {
    if i.buffer.Some? && i.keyChar.Some? && !i.mode.Plain? { WriteCipherKeeps(c, i, kv, salt, w, r); }
  }

  /** A read keeps the value within its buffer and changes nothing else about the item. */
  lemma ReadKeeps(c: Crypto, i: Item, kv: Kv, f: ReadFaults)
    requires ItemOk(i)
    ensures var t := Read(c, i, kv, f).item;
      ItemOk(t) && t.keyInt == i.keyInt && t.keyChar == i.keyChar && t.mode == i.mode && t.size == i.size
      && t.buffer.Some? == i.buffer.Some?
  {}

  /** What a write leaves in the backend: the value if it got as far as setting the key, whatever the
      read-back then makes of it; the entry as it was, or as the failing backend left it, if not. */
  lemma WriteReaches(c: Crypto, i: Item, kv: Kv, salt: Bytes, w: WriteFaults, r: ReadFaults)
    requires Lawful(c) && ItemOk(i) && |salt| == SALT_LEN
    ensures var t := Write(c, i, kv, salt, w, r);
      if !Writable(i) || SealFaulty(i.mode, w) then t.kv == kv
      else if w.kvSet.Some?
      then t.kv == if w.kvSet.value.Some? then kv[i.keyChar.value := w.kvSet.value.value] else kv - {i.keyChar.value}
      else Saved(c, i, t.kv)
  {
    if Writable(i) && !SealFaulty(i.mode, w) && !i.mode.Plain? {
      var sealed := SealPayload(c, i, c.hkdf(salt), w).value;
      SealHolds(c, i, salt, w);
      PutFrame(c, i, kv, Header(salt, sealed.tag, i.len) + sealed.cipher, w, r);
    }
  }

  /** Whatever the primitives do, a write leaves an item of the same kind. */
  lemma WriteSized(c: Crypto, i: Item, kv: Kv, salt: Bytes, w: WriteFaults, r: ReadFaults)
    requires ItemOk(i)
    ensures var t := Write(c, i, kv, salt, w, r).item;
      ItemOk(t) && t.size == i.size && t.buffer.Some? == i.buffer.Some?
  {}
}
