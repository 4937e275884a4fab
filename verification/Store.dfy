/** The secure store of security_store.c: lists of registered items over the key-value backend. */
module Store {
  import opened Common
  import opened StoreItem

  /** A registered list; id stands for the address of the array that its owner registered. */
  datatype StoreList = StoreList(id: nat, items: seq<Item>)

  type Lists = seq<StoreList>

  datatype Place = Place(list: nat, index: nat)

  const MAX_LIST_ITEMS := 128

  predicate At(lists: Lists, p: Place) {
    p.list < |lists| && p.index < |lists[p.list].items|
  }

  function ItemAt(lists: Lists, p: Place): Item
    requires At(lists, p)
  {
    lists[p.list].items[p.index]
  }

  function WithItem(lists: Lists, p: Place, item: Item): Lists
    requires At(lists, p)
  {
    lists[p.list := lists[p.list].(items := lists[p.list].items[p.index := item])]
  }

  // ----- the first item with a key -----

  predicate Earlier(p: Place, q: Place) {
    p.list < q.list || (p.list == q.list && p.index < q.index)
  }

  ghost predicate IsFirst(lists: Lists, key: int, p: Place) {
    && At(lists, p) && ItemAt(lists, p).keyInt == key
    && forall q :: At(lists, q) && ItemAt(lists, q).keyInt == key ==> !Earlier(q, p)
  }

  function FirstFrom(items: seq<Item>, key: int, j: nat): (r: nat)
    requires j <= |items|
    ensures j <= r <= |items| && (r < |items| ==> items[r].keyInt == key)
    ensures forall k :: j <= k < r ==> items[k].keyInt != key
    decreases |items| - j
  {
    if j == |items| || items[j].keyInt == key then j else FirstFrom(items, key, j + 1)
  }

  function LocateFrom(lists: Lists, key: int, i: nat): Option<Place>
    requires i <= |lists|
    decreases |lists| - i
  {
    if i == |lists| then None
    else
      var j := FirstFrom(lists[i].items, key, 0);
      if j < |lists[i].items| then Some(Place(i, j)) else LocateFrom(lists, key, i + 1)
  }

  function Locate(lists: Lists, key: int): Option<Place> {
    LocateFrom(lists, key, 0)
  }

  lemma {:induction false} LocateFromFirst(lists: Lists, key: int, i: nat)
    requires i <= |lists|
    ensures var p := LocateFrom(lists, key, i);
      && (p.Some? ==> At(lists, p.value) && i <= p.value.list && ItemAt(lists, p.value).keyInt == key)
      && (forall q :: At(lists, q) && i <= q.list && ItemAt(lists, q).keyInt == key ==> p.Some? && !Earlier(q, p.value))
    decreases |lists| - i
  {
    if i == |lists| {
    } else {
      LocateFromFirst(lists, key, i + 1);
    }
  }

  /** The place found is the first with the key; none is found exactly when there is none. */
  lemma LocateIsFirst(lists: Lists, key: int)
    ensures Locate(lists, key).Some? ==> IsFirst(lists, key, Locate(lists, key).value)
    ensures Locate(lists, key).None? ==> forall q :: At(lists, q) ==> ItemAt(lists, q).keyInt != key
  {
    LocateFromFirst(lists, key, 0);
  }

  lemma FirstUnique(lists: Lists, key: int, p: Place)
    requires IsFirst(lists, key, p)
    ensures Locate(lists, key) == Some(p)
  {
    LocateIsFirst(lists, key);
    var q := Locate(lists, key).value;
    assert !Earlier(q, p) && !Earlier(p, q);
  }

  // ----- the operations -----

  datatype Store = Store(lists: Lists, kv: Kv)

  datatype Op =
    | Register(list: StoreList, alloc: bool)
    | Set(key: int, value: Option<Bytes>)
    | Pull(key: int, r: ReadFaults)
    | Commit(key: int, salt: Bytes, w: WriteFaults, r: ReadFaults)
    | Delete(key: int, fault: Option<Option<Bytes>>)

  datatype Applied = Applied(store: Store, status: Status)

  function SetItem(i: Item, value: Bytes): ReadResult
    requires ItemOk(i)
  {
    if i.buffer.None? || i.size < |value| then ReadResult(i, Failed(InvalidBufSize))
    else ReadResult(Fill(i, value), Done)
  }

  function DeleteItem(i: Item, kv: Kv, fault: Option<Option<Bytes>>): WriteResult {
    if i.keyChar.None? then WriteResult(i, kv, Failed(InvalidItem))
    else if fault.Some? && fault.value.Some?
    then WriteResult(i, kv[i.keyChar.value := fault.value.value], Failed(KvError))
    else if fault.Some? || i.keyChar.value !in kv then WriteResult(i, kv - {i.keyChar.value}, Failed(KvError))
    else WriteResult(i.(len := 0), kv - {i.keyChar.value}, Done)
  }

  function RegisterList(lists: Lists, list: StoreList, alloc: bool): (Lists, Status) {
    if |list.items| == 0 || |list.items| > MAX_LIST_ITEMS then (lists, Failed(ParamInvalid))
    else if exists i :: 0 <= i < |lists| && lists[i].id == list.id then (lists, Done)
    else if alloc then (lists, Failed(Calloc))
    else (lists + [list], Done)
  }

  function ApplyAt(c: Crypto, s: Store, p: Place, op: Op): Applied
    requires At(s.lists, p) && ItemOk(ItemAt(s.lists, p)) && !op.Register? && (op.Set? ==> op.value.Some?)
  {
    var i := ItemAt(s.lists, p);
    match op
    case Set(_, value) => var r := SetItem(i, value.value); Applied(s.(lists := WithItem(s.lists, p, r.item)), r.status)
    case Pull(_, f) => var r := Read(c, i, s.kv, f); Applied(s.(lists := WithItem(s.lists, p, r.item)), r.status)
    case Commit(_, salt, w, f) =>
      var r := Write(c, i, s.kv, salt, w, f); Applied(Store(WithItem(s.lists, p, r.item), r.kv), r.status)
    case Delete(_, fault) =>
      var r := DeleteItem(i, s.kv, fault); Applied(Store(WithItem(s.lists, p, r.item), r.kv), r.status)
  }

  function Apply(c: Crypto, s: Store, op: Op): Applied
    requires StoreOk(s)
  {
    if op.Register? then
      var (lists, status) := RegisterList(s.lists, op.list, op.alloc);
      Applied(s.(lists := lists), status)
    else if op.Set? && (op.value.None? || |op.value.value| == 0) then Applied(s, Failed(ParamInvalid))
    else
      var p := Locate(s.lists, op.key);
      if p.None? then Applied(s, Failed(InvalidKey))
      else
        LocateIsFirst(s.lists, op.key);
        ApplyAt(c, s, p.value, op)
  }

  predicate ItemsOk(items: seq<Item>) {
    forall j :: 0 <= j < |items| ==> ItemOk(items[j])
  }

  /** Every registered item has a value that fits its buffer. */
  predicate StoreOk(s: Store) {
    forall i :: 0 <= i < |s.lists| ==> ItemsOk(s.lists[i].items)
  }

  /** What callers owe: the items they register fit their buffers, and a salt has its 16 bytes. */
  predicate Legal(op: Op) {
    match op
    case Register(list, _) => ItemsOk(list.items)
    case Commit(_, salt, _, _) => |salt| == SALT_LEN
    case _ => true
  }

  // ----- what every operation keeps -----

  predicate SameIdentity(i: Item, j: Item) {
    && j.keyInt == i.keyInt && j.keyChar == i.keyChar && j.mode == i.mode
    && j.size == i.size && j.buffer.Some? == i.buffer.Some?
  }

  lemma ItemKept(c: Crypto, s: Store, p: Place, op: Op)
    requires Lawful(c) && StoreOk(s) && Legal(op) && At(s.lists, p) && !op.Register? && (op.Set? ==> op.value.Some?)
    ensures var t := ApplyAt(c, s, p, op).store;
      exists j :: t.lists == WithItem(s.lists, p, j) && ItemOk(j) && SameIdentity(ItemAt(s.lists, p), j)
  {
    var i := ItemAt(s.lists, p);
    match op
    case Set(_, value) => assert SameIdentity(i, SetItem(i, value.value).item);
    case Pull(_, f) => ReadKeeps(c, i, s.kv, f); assert SameIdentity(i, Read(c, i, s.kv, f).item);
    case Commit(_, salt, w, f) =>
      WriteKeeps(c, i, s.kv, salt, w, f);
      assert SameIdentity(i, Write(c, i, s.kv, salt, w, f).item);
    case Delete(_, fault) => assert SameIdentity(i, DeleteItem(i, s.kv, fault).item);
  }

  lemma KvKept(c: Crypto, s: Store, p: Place, op: Op)
    requires Lawful(c) && StoreOk(s) && Legal(op) && At(s.lists, p) && !op.Register? && (op.Set? ==> op.value.Some?)
    ensures SameBut(s.kv, ApplyAt(c, s, p, op).store.kv, ItemAt(s.lists, p).keyChar)
    ensures op.Set? || op.Pull? ==> ApplyAt(c, s, p, op).store.kv == s.kv
  {
    if op.Commit? { WriteKeeps(c, ItemAt(s.lists, p), s.kv, op.salt, op.w, op.r); }
  }

  /** The item an operation is about: the first with its key. */
  function Target(s: Store, op: Op): Option<Place> {
    if op.Register? then None else Locate(s.lists, op.key)
  }

  /** From one state to the next, an item changes only if it is the first with the key of the
      operation, and then in its value only; lists are only ever added at the end. */
  ghost predicate Touches(s: Store, t: Store, target: Option<Place>) {
    && |s.lists| <= |t.lists|
    && forall p :: At(s.lists, p) ==>
         && At(t.lists, p) && SameIdentity(ItemAt(s.lists, p), ItemAt(t.lists, p))
         && (target != Some(p) ==> ItemAt(t.lists, p) == ItemAt(s.lists, p))
  }

  lemma WithItemTouches(s: Store, t: Store, p: Place, j: Item)
    requires StoreOk(s) && At(s.lists, p) && t.lists == WithItem(s.lists, p, j)
    requires ItemOk(j) && SameIdentity(ItemAt(s.lists, p), j)
    ensures StoreOk(t) && Touches(s, t, Some(p))
    ensures forall q :: At(t.lists, q) ==> At(s.lists, q)
  {
    forall i | 0 <= i < |t.lists| ensures ItemsOk(t.lists[i].items) { assert ItemsOk(s.lists[i].items); }
  }

  lemma StepKeeps(c: Crypto, s: Store, op: Op)
    requires Lawful(c) && StoreOk(s) && Legal(op)
    ensures var t := Apply(c, s, op).store; StoreOk(t) && Touches(s, t, Target(s, op))
  {
    var t := Apply(c, s, op).store;
    if !op.Register? && t != s {
      LocateIsFirst(s.lists, op.key);
      var p := Locate(s.lists, op.key).value;
      ItemKept(c, s, p, op);
      var j :| t.lists == WithItem(s.lists, p, j) && ItemOk(j) && SameIdentity(ItemAt(s.lists, p), j);
      WithItemTouches(s, t, p, j);
    }
  }

  // ----- a committed value survives -----

  /** An operation that can change what the backend holds under a name. */
  predicate Rewrites(s: Store, op: Op, name: string)
    requires StoreOk(s)
  {
    && (op.Commit? || op.Delete?)
    && var p := Locate(s.lists, op.key);
       p.Some? && At(s.lists, p.value) && ItemAt(s.lists, p.value).keyChar == Some(name)
  }

  /** The first item with the key is at p, and the backend holds the value under its name. */
  ghost predicate Pinned(c: Crypto, s: Store, key: int, p: Place, name: string, mode: Mode, value: Bytes) {
    && IsFirst(s.lists, key, p)
    && var i := ItemAt(s.lists, p);
       && Sound(i) && i.keyChar == Some(name) && i.mode == mode && |value| <= i.size
       && name in s.kv && Holds(c, mode, s.kv[name], value)
  }

  lemma FirstStays(c: Crypto, s: Store, op: Op, key: int, p: Place)
    requires Lawful(c) && StoreOk(s) && Legal(op) && IsFirst(s.lists, key, p)
    ensures IsFirst(Apply(c, s, op).store.lists, key, p)
  {
    var t := Apply(c, s, op).store;
    StepKeeps(c, s, op);
    forall q | At(t.lists, q) && ItemAt(t.lists, q).keyInt == key ensures !Earlier(q, p) {
      if q.list < |s.lists| { SameLength(c, s, op, q); }
    }
  }

  lemma SameLength(c: Crypto, s: Store, op: Op, q: Place)
    requires Lawful(c) && StoreOk(s) && Legal(op) && At(Apply(c, s, op).store.lists, q) && q.list < |s.lists|
    ensures At(s.lists, q)
  {
    if !op.Register? && Apply(c, s, op).store != s {
      LocateIsFirst(s.lists, op.key);
      ItemKept(c, s, Locate(s.lists, op.key).value, op);
    }
  }

  lemma PinnedStep(c: Crypto, s: Store, op: Op, key: int, p: Place, name: string, mode: Mode, value: Bytes)
    requires Lawful(c) && StoreOk(s) && Legal(op) && Pinned(c, s, key, p, name, mode, value) && !Rewrites(s, op, name)
    ensures Pinned(c, Apply(c, s, op).store, key, p, name, mode, value)
  {
    FirstStays(c, s, op, key, p);
    StepKeeps(c, s, op);
    assert SameIdentity(ItemAt(s.lists, p), ItemAt(Apply(c, s, op).store.lists, p));
    if !op.Register? && Apply(c, s, op).store != s {
      LocateIsFirst(s.lists, op.key);
      KvKept(c, s, Locate(s.lists, op.key).value, op);
    }
  }

  lemma CommitPins(c: Crypto, s: Store, key: int, salt: Bytes, w: WriteFaults, r: ReadFaults)
    requires Lawful(c) && StoreOk(s) && |salt| == SALT_LEN
    requires Apply(c, s, Commit(key, salt, w, r)).status.Done?
    ensures var t, p := Apply(c, s, Commit(key, salt, w, r)).store, Locate(s.lists, key);
      && p.Some? && At(s.lists, p.value)
      && var i := ItemAt(s.lists, p.value);
         && ItemOk(i) && i.buffer.Some? && i.keyChar.Some?
         && t.lists == s.lists && Pinned(c, t, key, p.value, i.keyChar.value, i.mode, Value(i))
  {
    LocateIsFirst(s.lists, key);
    var p := Locate(s.lists, key).value;
    WriteKeeps(c, ItemAt(s.lists, p), s.kv, salt, w, r);
    SetSame(s.lists, p);
  }

  lemma SetSame(lists: Lists, p: Place)
    requires At(lists, p)
    ensures WithItem(lists, p, ItemAt(lists, p)) == lists
  {
    var items := lists[p.list].items;
    assert items[p.index := items[p.index]] == items;
  }

  function ApplyAll(c: Crypto, s: Store, ops: seq<Op>): Store
    requires StoreOk(s)
  {
    if ops == [] then s
    else
      var t := ApplyAll(c, s, ops[..|ops| - 1]);
      if StoreOk(t) then Apply(c, t, ops[|ops| - 1]).store else t
  }

  predicate Sparing(s: Store, op: Op, name: string) {
    Legal(op) && StoreOk(s) && !Rewrites(s, op, name)
  }

  /** No operation of the run rewrites the name, and all are legal. */
  ghost predicate Spares(c: Crypto, s: Store, ops: seq<Op>, name: string)
    requires StoreOk(s)
  {
    forall k :: 0 <= k < |ops| ==> Sparing(ApplyAll(c, s, ops[..k]), ops[k], name)
  }

  /** No operation of the run is about the item at the place. */
  ghost predicate Untargeted(c: Crypto, s: Store, ops: seq<Op>, p: Place)
    requires StoreOk(s)
  {
    forall k :: 0 <= k < |ops| ==> Target(ApplyAll(c, s, ops[..k]), ops[k]) != Some(p)
  }

  /** In every run of legal operations, whatever fails, values fit their buffers, every item stays at its
      place with its keys, its mode and its buffer, and an item that no operation was about has the value
      it had. */
  lemma {:induction false} RunKeeps(c: Crypto, s: Store, ops: seq<Op>)
    requires Lawful(c) && StoreOk(s) && forall k :: 0 <= k < |ops| ==> Legal(ops[k])
    ensures var t := ApplyAll(c, s, ops);
      && StoreOk(t) && |s.lists| <= |t.lists|
      && forall p :: At(s.lists, p) ==>
           && At(t.lists, p) && SameIdentity(ItemAt(s.lists, p), ItemAt(t.lists, p))
           && (Untargeted(c, s, ops, p) ==> ItemAt(t.lists, p) == ItemAt(s.lists, p))
  {
    if ops == [] {
    } else {
      var front, last := ops[..|ops| - 1], ops[|ops| - 1];
      RunKeeps(c, s, front);
      StepKeeps(c, ApplyAll(c, s, front), last);
      forall p | At(s.lists, p) && Untargeted(c, s, ops, p)
        ensures Untargeted(c, s, front, p) && Target(ApplyAll(c, s, front), last) != Some(p)
      {
        UntargetedFront(c, s, ops, p);
      }
    }
  }

  lemma UntargetedFront(c: Crypto, s: Store, ops: seq<Op>, p: Place)
    requires StoreOk(s) && ops != [] && Untargeted(c, s, ops, p)
    ensures var front := ops[..|ops| - 1];
      Untargeted(c, s, front, p) && Target(ApplyAll(c, s, front), ops[|ops| - 1]) != Some(p)
  {
    var front := ops[..|ops| - 1];
    forall k | 0 <= k < |front| ensures Target(ApplyAll(c, s, front[..k]), front[k]) != Some(p) {
      assert front[..k] == ops[..k];
    }
  }

  lemma {:induction false} PinnedRun(c: Crypto, s: Store, ops: seq<Op>, key: int, p: Place,
                                     name: string, mode: Mode, value: Bytes)
    requires Lawful(c) && StoreOk(s) && Pinned(c, s, key, p, name, mode, value) && Spares(c, s, ops, name)
    ensures StoreOk(ApplyAll(c, s, ops)) && Pinned(c, ApplyAll(c, s, ops), key, p, name, mode, value)
  {
    if ops == [] {
    } else {
      var front, k := ops[..|ops| - 1], |ops| - 1;
      forall j | 0 <= j < |front| ensures front[..j] == ops[..j] {}
      PinnedRun(c, s, front, key, p, name, mode, value);
      assert ops[..k] == front;
      StepKeeps(c, ApplyAll(c, s, front), ops[k]);
      PinnedStep(c, ApplyAll(c, s, front), ops[k], key, p, name, mode, value);
    }
  }

  /** When a commit succeeds: there is an item with the key, it can be written and nothing outside fails. */
  lemma CommitDone(c: Crypto, s: Store, key: int, salt: Bytes, w: WriteFaults, r: ReadFaults)
    requires Lawful(c) && StoreOk(s) && |salt| == SALT_LEN
    ensures var t, p := Apply(c, s, Commit(key, salt, w, r)), Locate(s.lists, key);
      && (t.status.Done? <==>
            && p.Some? && At(s.lists, p.value)
            && Writable(ItemAt(s.lists, p.value)) && !WriteFaulty(ItemAt(s.lists, p.value).mode, w, r))
      && (p.None? ==> t == Applied(s, Failed(InvalidKey)))
  {
    var p := Locate(s.lists, key);
    LocateIsFirst(s.lists, key);
    if p.Some? {
      assert ItemsOk(s.lists[p.value.list].items);
      WriteKeeps(c, ItemAt(s.lists, p.value), s.kv, salt, w, r);
    }
  }

  /** When a delete succeeds: there is an item with the key, it has a name, the backend has an entry under the
      name and does not fail; otherwise no item changes, and without a fault no other entry does either. */
  lemma DeleteDone(c: Crypto, s: Store, key: int, fault: Option<Option<Bytes>>)
    requires StoreOk(s)
    ensures var t, p := Apply(c, s, Delete(key, fault)), Locate(s.lists, key);
      && (t.status.Done? <==>
            && p.Some? && At(s.lists, p.value) && fault.None?
            && ItemAt(s.lists, p.value).keyChar.Some? && ItemAt(s.lists, p.value).keyChar.value in s.kv)
      && (t.status.Failed? ==> t.store.lists == s.lists && (fault.None? ==> t.store.kv == s.kv))
      && (p.None? ==> t == Applied(s, Failed(InvalidKey)))
  {
    var p := Locate(s.lists, key);
    LocateIsFirst(s.lists, key);
    if p.Some? {
      SetSame(s.lists, p.value);
      assert ItemsOk(s.lists[p.value.list].items);
    }
  }

  /** After a successful commit RAM is as it was; and after any further run that does not write under
      the same name again, a pull succeeds unless something outside fails, and gives back exactly the
      value that was committed. */
  lemma CommitThenPull(c: Crypto, s: Store, key: int, salt: Bytes, w: WriteFaults, r: ReadFaults, ops: seq<Op>,
                       f: ReadFaults)
    requires Lawful(c) && StoreOk(s) && |salt| == SALT_LEN
    requires var t := Apply(c, s, Commit(key, salt, w, r));
      t.status.Done? && StoreOk(t.store) && var p := Locate(s.lists, key);
      p.Some? && At(s.lists, p.value) && var name := ItemAt(s.lists, p.value).keyChar;
      name.Some? && Spares(c, t.store, ops, name.value)
    ensures var t, p := Apply(c, s, Commit(key, salt, w, r)).store, Locate(s.lists, key).value;
      && t.lists == s.lists && StoreOk(ApplyAll(c, t, ops))
      && var i, u := ItemAt(s.lists, p), Apply(c, ApplyAll(c, t, ops), Pull(key, f));
         && (u.status.Done? <==> !Faulty(i.mode, f))
         && (u.status.Done? ==> At(u.store.lists, p) && var j := ItemAt(u.store.lists, p);
               ItemOk(j) && ItemOk(i) && i.buffer.Some? && j.buffer.Some? && Value(j) == Value(i))
  {
    CommitPins(c, s, key, salt, w, r);
    var t, p := Apply(c, s, Commit(key, salt, w, r)).store, Locate(s.lists, key).value;
    var i := ItemAt(s.lists, p);
    PinnedRun(c, t, ops, key, p, i.keyChar.value, i.mode, Value(i));
    PullPinned(c, ApplyAll(c, t, ops), key, p, i.keyChar.value, i.mode, Value(i), f);
  }

  lemma PullPinned(c: Crypto, s: Store, key: int, p: Place, name: string, mode: Mode, value: Bytes, f: ReadFaults)
    requires StoreOk(s) && Pinned(c, s, key, p, name, mode, value)
    ensures var u := Apply(c, s, Pull(key, f));
      && (u.status.Done? <==> !Faulty(mode, f))
      && (u.status.Done? ==> At(u.store.lists, p) && var j := ItemAt(u.store.lists, p);
            ItemOk(j) && j.buffer.Some? && Value(j) == value)
  {
    FirstUnique(s.lists, key, p);
    var i := ItemAt(s.lists, p);
    assert ItemsOk(s.lists[p.list].items);
    ReadHeld(c, i, s.kv, f, value);
    if !Faulty(mode, f) { FillValue(i, value); }
  }

  lemma FillValue(i: Item, value: Bytes)
    requires ItemOk(i) && i.buffer.Some? && |value| <= i.size
    ensures ItemOk(Fill(i, value)) && Value(Fill(i, value)) == value
  {}

  /** The first item with the key has a buffer and a value that fits the room. */
  predicate Readable(lists: Lists, key: int, room: nat) {
    && 0 < room && Locate(lists, key).Some? && At(lists, Locate(lists, key).value)
    && var i := ItemAt(lists, Locate(lists, key).value);
       ItemOk(i) && i.buffer.Some? && i.len <= room
  }

  /** A value that was set is the value that is read, for a caller with room for it; and it is refused
      exactly when it is missing or empty, or the key has no buffer that it fits. */
  lemma SetThenGet(c: Crypto, s: Store, key: int, value: Option<Bytes>)
    requires StoreOk(s)
    ensures var t, p := Apply(c, s, Set(key, value)), Locate(s.lists, key);
      && (t.status.Done? <==>
            value.Some? && value.value != [] && p.Some? && At(s.lists, p.value)
            && ItemAt(s.lists, p.value).buffer.Some? && |value.value| <= ItemAt(s.lists, p.value).size)
      && (t.status.Done? ==> Readable(t.store.lists, key, |value.value|))
      && (t.status.Done? ==> Value(ItemAt(t.store.lists, Locate(t.store.lists, key).value)) == value.value)
      && (t.status.Failed? ==> t.store == s)
  {
    LocateIsFirst(s.lists, key);
    var p, t := Locate(s.lists, key), Apply(c, s, Set(key, value));
    if value.Some? && value.value != [] && p.Some? {
      var i := ItemAt(s.lists, p.value);
      assert ItemsOk(s.lists[p.value.list].items);
      if t.status.Done? {
        FillValue(i, value.value);
        FirstUnique(t.store.lists, key, p.value);
      } else {
        SetSame(s.lists, p.value);
      }
    }
  }

  /** The first item with the key is at p, and the backend has nothing under its name. */
  ghost predicate Gone(s: Store, key: int, p: Place, i: Item) {
    && IsFirst(s.lists, key, p) && SameIdentity(i, ItemAt(s.lists, p))
    && i.keyChar.Some? && i.keyChar.value !in s.kv
  }

  lemma GoneStep(c: Crypto, s: Store, op: Op, key: int, p: Place, i: Item)
    requires Lawful(c) && StoreOk(s) && Legal(op) && Gone(s, key, p, i) && !Rewrites(s, op, i.keyChar.value)
    ensures Gone(Apply(c, s, op).store, key, p, i)
  {
    FirstStays(c, s, op, key, p);
    StepKeeps(c, s, op);
    assert SameIdentity(ItemAt(s.lists, p), ItemAt(Apply(c, s, op).store.lists, p));
    if !op.Register? && Apply(c, s, op).store != s {
      LocateIsFirst(s.lists, op.key);
      KvKept(c, s, Locate(s.lists, op.key).value, op);
    }
  }

  lemma {:induction false} GoneRun(c: Crypto, s: Store, ops: seq<Op>, key: int, p: Place, i: Item)
    requires Lawful(c) && StoreOk(s) && Gone(s, key, p, i) && Spares(c, s, ops, i.keyChar.value)
    ensures StoreOk(ApplyAll(c, s, ops)) && Gone(ApplyAll(c, s, ops), key, p, i)
  {
    if ops == [] {
    } else {
      var front, k := ops[..|ops| - 1], |ops| - 1;
      forall j | 0 <= j < |front| ensures front[..j] == ops[..j] {}
      GoneRun(c, s, front, key, p, i);
      assert ops[..k] == front;
      StepKeeps(c, ApplyAll(c, s, front), ops[k]);
      GoneStep(c, ApplyAll(c, s, front), ops[k], key, p, i);
    }
  }

  /** After a successful delete the name is gone from the backend and the item is empty; and after any
      further run that does not write under the name again, a pull of the item succeeds if and only if
      the item is in a cipher mode and has a buffer and the length query works, and then it is empty. */
  lemma DeleteThenPull(c: Crypto, s: Store, key: int, fault: Option<Option<Bytes>>, ops: seq<Op>, f: ReadFaults)
    requires Lawful(c) && StoreOk(s)
    requires var t := Apply(c, s, Delete(key, fault));
      t.status.Done? && StoreOk(t.store) && var p := Locate(s.lists, key);
      p.Some? && At(s.lists, p.value) && var name := ItemAt(s.lists, p.value).keyChar;
      name.Some? && Spares(c, t.store, ops, name.value)
    ensures var t, p := Apply(c, s, Delete(key, fault)).store, Locate(s.lists, key).value;
      && var i := ItemAt(s.lists, p);
         && i.keyChar.value !in t.kv && SameBut(s.kv, t.kv, i.keyChar)
         && t.lists == WithItem(s.lists, p, i.(len := 0)) && StoreOk(ApplyAll(c, t, ops))
         && var u := Apply(c, ApplyAll(c, t, ops), Pull(key, f));
            && (u.status.Done? <==> i.buffer.Some? && 0 < i.size && !i.mode.Plain? && !f.getLen)
            && (u.status.Done? ==> At(u.store.lists, p) && ItemAt(u.store.lists, p).len == 0)
  {
    var p := Locate(s.lists, key).value;
    LocateIsFirst(s.lists, key);
    var i, t := ItemAt(s.lists, p), Apply(c, s, Delete(key, fault)).store;
    assert ItemsOk(s.lists[p.list].items);
    FirstStays(c, s, Delete(key, fault), key, p);
    GoneRun(c, t, ops, key, p, i);
    var v := ApplyAll(c, t, ops);
    FirstUnique(v.lists, key, p);
    assert ItemsOk(v.lists[p.list].items);
  }

  predicate Registered(lists: Lists, id: nat) {
    exists i :: 0 <= i < |lists| && lists[i].id == id
  }

  ghost predicate DistinctIds(lists: Lists) {
    forall i, j :: 0 <= i < j < |lists| ==> lists[i].id != lists[j].id
  }

  /** A list is registered if and only if it has 1 to 128 items and is there already or there is memory for it;
      it is there at most once, a new one is the last, and the others stay where they are. */
  lemma RegisterOnce(lists: Lists, list: StoreList, alloc: bool)
    requires DistinctIds(lists)
    ensures var (after, status) := RegisterList(lists, list, alloc);
      && DistinctIds(after) && lists <= after
      && (status.Done? <==> 0 < |list.items| <= 128 && (Registered(lists, list.id) || !alloc))
      && (status.Done? ==> Registered(after, list.id))
      && after == (if status.Done? && !Registered(lists, list.id) then lists + [list] else lists)
      && RegisterList(after, list, alloc).0 == after
  {
    var (after, status) := RegisterList(lists, list, alloc);
    if after != lists { assert after[|lists|].id == list.id; }
  }

  // ----- the store as it stands in memory -----

  class SecurityStore {
    var lists: Lists
    var kv: Kv

    ghost function View(): Store
      reads this
    {
      Store(lists, kv)
    }

    constructor (kv: Kv)
      ensures lists == [] && this.kv == kv
    {
      lists, this.kv := [], kv;
    }

    method RegStoreList(list: StoreList, alloc: bool) returns (status: Status)
      modifies this
      ensures lists == RegisterList(old(lists), list, alloc).0 && kv == old(kv)
      ensures status == RegisterList(old(lists), list, alloc).1
    {
      if |list.items| == 0 || |list.items| > MAX_LIST_ITEMS {
        return Failed(ParamInvalid);
      }
      for i := 0 to |lists|
        invariant lists == old(lists) && kv == old(kv)
        invariant forall k :: 0 <= k < i ==> lists[k].id != list.id
      {
        if lists[i].id == list.id {
          return Done;
        }
      }
      if alloc {
        return Failed(Calloc);
      }
      lists := lists + [list];
      status := Done;
    }

    /** GetStoreItemByKey. */
    method Find(key: int) returns (p: Option<Place>)
      ensures p == Locate(lists, key)
    {
      for i := 0 to |lists|
        invariant Locate(lists, key) == LocateFrom(lists, key, i)
      {
        var items := lists[i].items;
        for j := 0 to |items|
          invariant FirstFrom(items, key, 0) == FirstFrom(items, key, j)
        {
          if items[j].keyInt == key {
            return Some(Place(i, j));
          }
        }
      }
      p := None;
    }

    method SetValue(key: int, value: Option<Bytes>) returns (status: Status)
      requires StoreOk(View())
      modifies this
      ensures forall c :: Applied(View(), status) == Apply(c, old(View()), Set(key, value))
    {
      if value.None? || |value.value| == 0 {
        return Failed(ParamInvalid);
      }
      var p := Find(key);
      LocateIsFirst(lists, key);
      if p.None? {
        return Failed(InvalidKey);
      }
      var i := ItemAt(lists, p.value);
      assert ItemsOk(lists[p.value.list].items);
      if i.buffer.None? || i.size < |value.value| {
        SetSame(lists, p.value);
        return Failed(InvalidBufSize);
      }
      lists := WithItem(lists, p.value, Fill(i, value.value));
      status := Done;
    }

    /** The value of the first item with the key, if the caller's buffer has room for it. */
    method GetValue(key: int, room: nat) returns (value: Result<Bytes, Error>)
      requires StoreOk(View())
      ensures value.Ok? <==> Readable(lists, key, room)
      ensures value.Ok? ==> value.value == Value(ItemAt(lists, Locate(lists, key).value))
    {
      if room == 0 {
        return Err(ParamInvalid);
      }
      var p := Find(key);
      LocateIsFirst(lists, key);
      if p.None? {
        return Err(InvalidKey);
      }
      var i := ItemAt(lists, p.value);
      assert ItemsOk(lists[p.value.list].items);
      if i.buffer.None? || room < i.len {
        return Err(InvalidBufSize);
      }
      value := Ok(i.buffer.value[..i.len]);
    }

    method PullItem(c: Crypto, key: int, f: ReadFaults) returns (status: Status)
      requires StoreOk(View())
      modifies this
      ensures Applied(View(), status) == Apply(c, old(View()), Pull(key, f))
    {
      var p := Find(key);
      LocateIsFirst(lists, key);
      if p.None? {
        return Failed(InvalidKey);
      }
      assert ItemsOk(lists[p.value.list].items);
      var r := Read(c, ItemAt(lists, p.value), kv, f);
      lists := WithItem(lists, p.value, r.item);
      status := r.status;
    }

    method CommitItem(c: Crypto, key: int, salt: Bytes, w: WriteFaults, f: ReadFaults) returns (status: Status)
      requires StoreOk(View())
      modifies this
      ensures Applied(View(), status) == Apply(c, old(View()), Commit(key, salt, w, f))
    {
      var p := Find(key);
      LocateIsFirst(lists, key);
      if p.None? {
        return Failed(InvalidKey);
      }
      assert ItemsOk(lists[p.value.list].items);
      var r := Write(c, ItemAt(lists, p.value), kv, salt, w, f);
      lists, kv := WithItem(lists, p.value, r.item), r.kv;
      status := r.status;
    }

    method DelItem(key: int, fault: Option<Option<Bytes>>) returns (status: Status)
      requires StoreOk(View())
      modifies this
      ensures forall c :: Applied(View(), status) == Apply(c, old(View()), Delete(key, fault))
    {
      var p := Find(key);
      LocateIsFirst(lists, key);
      if p.None? {
        return Failed(InvalidKey);
      }
      assert ItemsOk(lists[p.value.list].items);
      var r := DeleteItem(ItemAt(lists, p.value), kv, fault);
      lists, kv := WithItem(lists, p.value, r.item), r.kv;
      status := r.status;
    }
  }
}
