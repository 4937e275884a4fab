/** The chained hash table of utils_hash_map.c seen as a value: a sequence of buckets, each a sequence
    of entries. The finite map it stands for, and what inserting and removing do to it. */
module HashTable {
  import opened Common

  type Key = seq<Byte>

  // ----- the hash -----

  /** The last four bytes of the key, which are all that is hashed. */
  function Tail4(key: Key): Key {
    if |key| > 4 then key[|key| - 4..] else key
  }

  /** Bytes as digits of a number to the base 16. */
  function Poly(s: Key): nat {
    if s == [] then 0 else 16 * Poly(s[..|s| - 1]) + s[|s| - 1]
  }

  function HashOf(key: Key): nat {
    Poly(Tail4(key))
  }

  function Xor(a: nat, b: nat): nat {
    if a == 0 && b == 0 then 0 else (a + b) % 2 + 2 * Xor(a / 2, b / 2)
  }

  /** One round of the loop: shift in a byte, then fold the top four bits back if any is set. */
  function HashRound(h: U32, b: Byte): nat {
    var h1 := ToU32(16 * h + b);
    var top := h1 / 0x1000_0000;
    if top != 0 then Xor(Xor(h1, 16 * top), 0x1000_0000 * top) else h1
  }

  lemma {:induction false} PolyBound(s: Key)
    requires |s| <= 4
    ensures |s| == 0 ==> Poly(s) == 0
    ensures |s| == 1 ==> Poly(s) <= 255
    ensures |s| == 2 ==> Poly(s) <= 4335
    ensures |s| == 3 ==> Poly(s) <= 69615
    ensures Poly(s) <= 1114095
  {
    if s == [] {
    } else {
      PolyBound(s[..|s| - 1]);
    }
  }

  lemma NoFold(h: nat, b: Byte)
    requires 16 * h + b < 0x1000_0000
    ensures HashRound(h, b) == 16 * h + b
  {
    var h1 := 16 * h + b;
    assert ToU32(h1) == h1;
    assert h1 / 0x1000_0000 == 0;
  }

  /** The fold never happens: the hash is the number the last four bytes form, below 2^21. */
  method Hash(key: Key) returns (h: U32)
    ensures h == HashOf(key) <= 1114095
  {
    var begin := if |key| > 4 then |key| - 4 else 0;
    var i := begin;
    h := 0;
    while i < |key|
      invariant begin <= i <= |key|
      invariant h == Poly(key[begin..i]) <= 1114095
    {
      assert key[begin..i + 1][..i - begin] == key[begin..i];
      PolyBound(key[begin..i + 1]);
      NoFold(h, key[i]);
      h := HashRound(h, key[i]);
      i := i + 1;
    }
    assert key[begin..] == Tail4(key);
    assert key[begin..i] == key[begin..];
  }

  // ----- tables -----

  datatype Entry<V> = Entry(key: Key, value: V)

  type Chain<V> = seq<Entry<V>>
  type Table<V> = seq<Chain<V>>

  function Bucket(key: Key, n: nat): (b: nat)
    requires n > 0
    ensures b < n
  {
    HashOf(key) % n
  }

  predicate InBucket<V>(c: Chain<V>, b: nat, n: nat)
    requires n > 0
  {
    forall j :: 0 <= j < |c| ==> c[j].key != [] && Bucket(c[j].key, n) == b
  }

  predicate Distinct<V>(c: Chain<V>) {
    forall j, k :: 0 <= j < k < |c| ==> c[j].key != c[k].key
  }

  /** Every key is non-empty and sits in its bucket, once. */
  predicate ChainOk<V>(c: Chain<V>, b: nat, n: nat)
    requires n > 0
  {
    InBucket(c, b, n) && Distinct(c)
  }

  predicate BucketsOk<V>(t: Table<V>, k: nat)
    requires k <= |t|
  {
    k == 0 || (BucketsOk(t, k - 1) && ChainOk(t[k - 1], k - 1, |t|))
  }

  predicate TableOk<V>(t: Table<V>) {
    |t| > 0 && BucketsOk(t, |t|)
  }

  lemma {:induction false} BucketAt<V>(t: Table<V>, k: nat, b: nat)
    requires b < k <= |t| && BucketsOk(t, k)
    ensures ChainOk(t[b], b, |t|)
  {
    if b == k - 1 {
    } else {
      BucketAt(t, k - 1, b);
    }
  }

  lemma {:induction false} BucketsIntro<V>(t: Table<V>, k: nat)
    requires k <= |t| && forall b :: 0 <= b < |t| ==> ChainOk(t[b], b, |t|)
    ensures BucketsOk(t, k)
  {
    if k == 0 {
    } else {
      BucketsIntro(t, k - 1);
    }
  }

  /** The position of a key in a chain, or the length of the chain. */
  function Find<V>(c: Chain<V>, key: Key): (j: nat)
    ensures j <= |c|
    ensures j < |c| ==> c[j].key == key
    ensures forall k :: 0 <= k < j ==> c[k].key != key
  {
    if c == [] then 0 else if c[0].key == key then 0 else 1 + Find(c[1..], key)
  }

  function ChainPut<V>(c: Chain<V>, key: Key, value: V): Chain<V> {
    var j := Find(c, key);
    if j < |c| then c[j := Entry(key, value)] else c + [Entry(key, value)]
  }

  function ChainDrop<V>(c: Chain<V>, key: Key): Chain<V> {
    var j := Find(c, key);
    if j < |c| then c[..j] + c[j + 1..] else c
  }

  function Put<V>(t: Table<V>, key: Key, value: V): Table<V>
    requires |t| > 0
  {
    var b := Bucket(key, |t|);
    t[b := ChainPut(t[b], key, value)]
  }

  function Drop<V>(t: Table<V>, key: Key): Table<V>
    requires |t| > 0
  {
    var b := Bucket(key, |t|);
    t[b := ChainDrop(t[b], key)]
  }

  function ChainLookup<V>(c: Chain<V>, key: Key): Option<V> {
    var j := Find(c, key);
    if j < |c| then Some(c[j].value) else None
  }

  function Lookup<V>(t: Table<V>, key: Key): Option<V>
    requires |t| > 0
  {
    ChainLookup(t[Bucket(key, |t|)], key)
  }

  function KeysOf<V>(t: Table<V>): set<Key> {
    set b, j | 0 <= b < |t| && 0 <= j < |t[b]| :: t[b][j].key
  }

  /** The finite map the table stands for. */
  function Contents<V>(t: Table<V>): map<Key, V>
    requires |t| > 0
  {
    map key | key in KeysOf(t) && Lookup(t, key).Some? :: Lookup(t, key).value
  }

  lemma FindAt<V>(c: Chain<V>, key: Key, j: nat)
    requires j < |c| && c[j].key == key
    requires Distinct(c)
    ensures Find(c, key) == j
  {
    assert Find(c, key) <= j;
  }

  /** The map has exactly the entries of the table. */
  lemma ContentsAre<V>(t: Table<V>)
    requires TableOk(t)
    ensures Contents(t).Keys == KeysOf(t)
    ensures forall key :: key in Contents(t) <==> Lookup(t, key).Some?
    ensures forall b, j :: 0 <= b < |t| && 0 <= j < |t[b]| ==>
      t[b][j].key in Contents(t) && Contents(t)[t[b][j].key] == t[b][j].value
  {
    forall b, j | 0 <= b < |t| && 0 <= j < |t[b]|
      ensures Lookup(t, t[b][j].key) == Some(t[b][j].value) && t[b][j].key in KeysOf(t)
    {
      BucketAt(t, |t|, b);
      FindAt(t[b], t[b][j].key, j);
    }
    forall key | Lookup(t, key).Some? ensures key in KeysOf(t) {
      var b := Bucket(key, |t|);
      var j := Find(t[b], key);
      assert t[b][j].key == key;
    }
  }

  /** What a lookup in the map gives. */
  function MapLookup<V>(m: map<Key, V>, key: Key): Option<V> {
    if key in m then Some(m[key]) else None
  }

  lemma ContentsLookup<V>(t: Table<V>, key: Key)
    requires TableOk(t)
    ensures MapLookup(Contents(t), key) == Lookup(t, key)
  {
    ContentsAre(t);
  }

  lemma ContentsUnique<V>(t: Table<V>, m: map<Key, V>)
    requires TableOk(t) && forall key :: MapLookup(m, key) == Lookup(t, key)
    ensures Contents(t) == m
  {
    var n := Contents(t);
    forall key ensures MapLookup(m, key) == MapLookup(n, key) { ContentsLookup(t, key); }
    assert forall key :: key in m <==> MapLookup(m, key).Some?;
    assert forall key :: key in n <==> MapLookup(n, key).Some?;
    assert n.Keys == m.Keys;
    forall key | key in m ensures m[key] == n[key] { assert MapLookup(m, key) == MapLookup(n, key); }
  }

  lemma ChainPutOk<V>(c: Chain<V>, b: nat, n: nat, key: Key, value: V)
    requires n > 0 && ChainOk(c, b, n) && key != [] && Bucket(key, n) == b
    ensures ChainOk(ChainPut(c, key, value), b, n)
  {
    PutDistinct(c, key, value);
    var d := ChainPut(c, key, value);
    forall i | 0 <= i < |d| ensures d[i].key != [] && Bucket(d[i].key, n) == b {
      assert d[i].key == key || (i < |c| && d[i] == c[i]);
    }
  }

  lemma PutDistinct<V>(c: Chain<V>, key: Key, value: V)
    requires Distinct(c)
    ensures Distinct(ChainPut(c, key, value))
  {
    var d := ChainPut(c, key, value);
    forall i, k | 0 <= i < k < |d| ensures d[i].key != d[k].key {
      assert d[i].key == c[i].key;
      assert k < |c| ==> d[k].key == c[k].key;
    }
  }

  /** Where the element at position i of a chain with position j dropped came from. */
  function Origin(i: nat, j: nat): nat {
    if i < j then i else i + 1
  }

  lemma DropAt<V>(c: Chain<V>, j: nat, i: nat)
    requires j < |c| && i < |c| - 1
    ensures (c[..j] + c[j + 1..])[i] == c[Origin(i, j)]
  {}

  lemma DropDistinct<V>(c: Chain<V>, j: nat)
    requires j < |c| && Distinct(c)
    ensures Distinct(c[..j] + c[j + 1..])
  {
    var d := c[..j] + c[j + 1..];
    forall i, k | 0 <= i < k < |d| ensures d[i].key != d[k].key {
      DropAt(c, j, i);
      DropAt(c, j, k);
    }
  }

  lemma DropInBucket<V>(c: Chain<V>, j: nat, b: nat, n: nat)
    requires n > 0 && j < |c| && InBucket(c, b, n)
    ensures InBucket(c[..j] + c[j + 1..], b, n)
  {
    var d := c[..j] + c[j + 1..];
    forall i | 0 <= i < |d| ensures d[i].key != [] && Bucket(d[i].key, n) == b { DropAt(c, j, i); }
  }

  lemma ChainDropOk<V>(c: Chain<V>, b: nat, n: nat, key: Key)
    requires n > 0 && ChainOk(c, b, n)
    ensures ChainOk(ChainDrop(c, key), b, n)
  {
    var j := Find(c, key);
    if j < |c| {
      DropDistinct(c, j);
      DropInBucket(c, j, b, n);
    }
  }

  lemma ChainPutLookup<V>(c: Chain<V>, key: Key, value: V, other: Key)
    ensures var d := ChainPut(c, key, value);
      && (Find(d, other) < |d| <==> other == key || Find(c, other) < |c|)
      && (Find(d, other) < |d| ==> d[Find(d, other)].value == if other == key then value else c[Find(c, other)].value)
  {
    var d := ChainPut(c, key, value);
    var j := Find(c, key);
    var f, g := Find(c, other), Find(d, other);
    if other == key {
      assert d[if j < |c| then j else |c|].key == key;
      if g < |d| { assert d[g].key == key; }
    } else {
      if f < |c| { assert d[f].key == other; }
      if g < |d| { assert g < |c| && c[g].key == other; }
    }
  }

  lemma ChainDropLookup<V>(c: Chain<V>, key: Key, other: Key)
    requires Distinct(c)
    ensures var d := ChainDrop(c, key);
      && (Find(d, other) < |d| <==> other != key && Find(c, other) < |c|)
      && (Find(d, other) < |d| ==> d[Find(d, other)].value == c[Find(c, other)].value)
  {
    var d := ChainDrop(c, key);
    var j := Find(c, key);
    var f, g := Find(c, other), Find(d, other);
    if j < |c| {
      DropDistinct(c, j);
      if g < |d| {
        DropAt(c, j, g);
        FindAt(c, other, Origin(g, j));
      }
      if other != key && f < |c| {
        var f' := if f < j then f else f - 1;
        DropAt(c, j, f');
        FindAt(d, other, f');
      }
    }
  }

  lemma PutOk<V>(t: Table<V>, key: Key, value: V)
    requires TableOk(t) && key != []
    ensures TableOk(Put(t, key, value))
  {
    var b := Bucket(key, |t|);
    var u := Put(t, key, value);
    forall i | 0 <= i < |u| ensures ChainOk(u[i], i, |u|) {
      BucketAt(t, |t|, i);
      if i == b { ChainPutOk(t[b], b, |t|, key, value); }
    }
    BucketsIntro(u, |u|);
  }

  lemma PutLookup<V>(t: Table<V>, key: Key, value: V, other: Key)
    requires TableOk(t)
    ensures Lookup(Put(t, key, value), other) == if other == key then Some(value) else Lookup(t, other)
  {
    ChainPutLookup(t[Bucket(key, |t|)], key, value, other);
  }

  /** Inserting refines the map update. */
  lemma PutRefines<V>(t: Table<V>, key: Key, value: V)
    requires TableOk(t) && key != []
    ensures TableOk(Put(t, key, value))
    ensures Contents(Put(t, key, value)) == Contents(t)[key := value]
  {
    var u, m := Put(t, key, value), Contents(t)[key := value];
    PutOk(t, key, value);
    forall other ensures MapLookup(m, other) == Lookup(u, other) {
      PutLookup(t, key, value, other);
      ContentsLookup(t, other);
    }
    ContentsUnique(u, m);
  }

  lemma DropOk<V>(t: Table<V>, key: Key)
    requires TableOk(t)
    ensures TableOk(Drop(t, key))
  {
    var b := Bucket(key, |t|);
    var u := Drop(t, key);
    forall i | 0 <= i < |u| ensures ChainOk(u[i], i, |u|) {
      BucketAt(t, |t|, i);
      if i == b { ChainDropOk(t[b], b, |t|, key); }
    }
    BucketsIntro(u, |u|);
  }

  lemma DropLookup<V>(t: Table<V>, key: Key, other: Key)
    requires TableOk(t)
    ensures Lookup(Drop(t, key), other) == if other == key then None else Lookup(t, other)
  {
    var b := Bucket(key, |t|);
    BucketAt(t, |t|, b);
    ChainDropLookup(t[b], key, other);
  }

  /** Removing refines the removal from the map. */
  lemma DropRefines<V>(t: Table<V>, key: Key)
    requires TableOk(t)
    ensures TableOk(Drop(t, key))
    ensures Contents(Drop(t, key)) == Contents(t) - {key}
  {
    var u, m := Drop(t, key), Contents(t) - {key};
    DropOk(t, key);
    forall other ensures MapLookup(m, other) == Lookup(u, other) {
      DropLookup(t, key, other);
      ContentsLookup(t, other);
    }
    ContentsUnique(u, m);
  }
}
