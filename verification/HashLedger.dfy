/** The values a hash table owns, the values it has freed, and whole runs of operations on it. */
module HashLedger {
  import opened Common
  import opened HashTable

  /** All entries, bucket by bucket. */
  function Flatten<V>(t: Table<V>): Chain<V> {
    if t == [] then [] else t[0] + Flatten(t[1..])
  }

  function ValuesOf<V>(c: Chain<V>): seq<V> {
    if c == [] then [] else ValuesOf(c[..|c| - 1]) + [c[|c| - 1].value]
  }

  lemma {:induction false} ValuesJoin<V>(c: Chain<V>, d: Chain<V>)
    ensures ValuesOf(c + d) == ValuesOf(c) + ValuesOf(d)
  {
    if d == [] {
      assert c + d == c;
    } else {
      var k := |d| - 1;
      ValuesJoin(c, d[..k]);
      assert (c + d)[..|c| + k] == c + d[..k];
      assert (c + d)[|c| + k] == d[k];
    }
  }

  /** How often a value occurs in a sequence. */
  ghost function Count<V>(s: seq<V>, v: V): nat {
    if s == [] then 0 else Count(s[..|s| - 1], v) + if s[|s| - 1] == v then 1 else 0
  }

  lemma {:induction false} CountJoin<V>(s: seq<V>, t: seq<V>, v: V)
    ensures Count(s + t, v) == Count(s, v) + Count(t, v)
  {
    if t == [] {
      assert s + t == s;
    } else {
      var k := |t| - 1;
      CountJoin(s, t[..k], v);
      assert (s + t)[..|s| + k] == s + t[..k];
      assert (s + t)[|s| + k] == t[k];
    }
  }

  lemma CountOne<V>(x: V, v: V)
    ensures Count([x], v) == if x == v then 1 else 0
  {
    assert [x][..0] == [];
  }

  /** How often a chain holds a value. */
  ghost function Held<V>(c: Chain<V>, v: V): nat {
    Count(ValuesOf(c), v)
  }

  lemma HeldJoin<V>(c: Chain<V>, d: Chain<V>, v: V)
    ensures Held(c + d, v) == Held(c, v) + Held(d, v)
  {
    ValuesJoin(c, d);
    CountJoin(ValuesOf(c), ValuesOf(d), v);
  }

  lemma HeldOne<V>(e: Entry<V>, v: V)
    ensures Held([e], v) == if e.value == v then 1 else 0
  {
    assert [e][..0] == [];
    assert ValuesOf([e]) == [e.value];
    CountOne(e.value, v);
  }

  lemma HeldLast<V>(c: Chain<V>, v: V)
    requires c != []
    ensures Held(c, v) == Held(c[..|c| - 1], v) + if c[|c| - 1].value == v then 1 else 0
  {
    CountJoin(ValuesOf(c[..|c| - 1]), [c[|c| - 1].value], v);
    CountOne(c[|c| - 1].value, v);
  }

  lemma HeldAround<V>(a: Chain<V>, e: Entry<V>, b: Chain<V>, v: V)
    ensures Held(a + [e] + b, v) == Held(a, v) + (if e.value == v then 1 else 0) + Held(b, v)
  {
    HeldJoin(a + [e], b, v);
    HeldJoin(a, [e], v);
    HeldOne(e, v);
  }

  /** How often a table stores a value. */
  ghost function Owned<V>(t: Table<V>, v: V): nat {
    Held(Flatten(t), v)
  }

  lemma {:induction false} FlattenAround<V>(t: Table<V>, b: nat)
    requires b < |t|
    ensures Flatten(t) == Flatten(t[..b]) + t[b] + Flatten(t[b + 1..])
  {
    if b == 0 {
    } else {
      FlattenAround(t[1..], b - 1);
      assert t[..b][1..] == t[1..][..b - 1];
      assert t[b + 1..] == t[1..][b..];
    }
  }

  /** How the number of entries changes. */
  lemma PutCount<V>(t: Table<V>, key: Key, value: V)
    requires |t| > 0
    ensures |Flatten(Put(t, key, value))| == |Flatten(t)| + if Lookup(t, key).Some? then 0 else 1
  {
    var b := Bucket(key, |t|);
    var u := Put(t, key, value);
    FlattenAround(t, b);
    FlattenAround(u, b);
    assert u[..b] == t[..b] && u[b + 1..] == t[b + 1..];
  }

  lemma DropCount<V>(t: Table<V>, key: Key)
    requires |t| > 0
    ensures |Flatten(t)| == |Flatten(Drop(t, key))| + if Lookup(t, key).Some? then 1 else 0
  {
    var b := Bucket(key, |t|);
    var u := Drop(t, key);
    FlattenAround(t, b);
    FlattenAround(u, b);
    assert u[..b] == t[..b] && u[b + 1..] == t[b + 1..];
  }

  /** Buckets b0, b0 + 1, ... of a table of n buckets. */
  predicate BucketsFrom<V>(t: Table<V>, b0: nat, n: nat)
    requires n > 0
  {
    forall i :: 0 <= i < |t| ==> ChainOk(t[i], b0 + i, n)
  }

  lemma {:induction false} FlattenDistinct<V>(t: Table<V>, b0: nat, n: nat)
    requires n > 0 && BucketsFrom(t, b0, n)
    ensures Distinct(Flatten(t))
    ensures forall j :: 0 <= j < |Flatten(t)| ==> Bucket(Flatten(t)[j].key, n) >= b0
  {
    if t == [] {
    } else {
      forall i | 0 <= i < |t[1..]| ensures ChainOk(t[1..][i], b0 + 1 + i, n) {
        assert ChainOk(t[i + 1], b0 + (i + 1), n);
      }
      FlattenDistinct(t[1..], b0 + 1, n);
      assert ChainOk(t[0], b0 + 0, n);
      JoinDistinct(t[0], Flatten(t[1..]), b0, n);
    }
  }

  lemma JoinDistinct<V>(c: Chain<V>, d: Chain<V>, b: nat, n: nat)
    requires n > 0 && ChainOk(c, b, n) && Distinct(d)
    requires forall j :: 0 <= j < |d| ==> Bucket(d[j].key, n) >= b + 1
    ensures Distinct(c + d)
    ensures forall j :: 0 <= j < |c + d| ==> Bucket((c + d)[j].key, n) >= b
  {
    var e := c + d;
    forall i, k | 0 <= i < k < |e| ensures e[i].key != e[k].key {
      if i < |c| <= k {
        assert Bucket(c[i].key, n) == b && Bucket(d[k - |c|].key, n) >= b + 1;
      }
    }
  }

  function ChainKeys<V>(c: Chain<V>): set<Key> {
    set j | 0 <= j < |c| :: c[j].key
  }

  lemma {:induction false} DistinctCount<V>(c: Chain<V>)
    requires Distinct(c)
    ensures |ChainKeys(c)| == |c|
  {
    if c == [] {
    } else {
      var k := |c| - 1;
      DistinctCount(c[..k]);
      assert ChainKeys(c) == ChainKeys(c[..k]) + {c[k].key};
      assert c[k].key !in ChainKeys(c[..k]);
    }
  }

  lemma {:induction false} FlattenKeys<V>(t: Table<V>)
    ensures ChainKeys(Flatten(t)) == KeysOf(t)
  {
    if t == [] {
    } else {
      var rest := t[1..];
      FlattenKeys(rest);
      assert ChainKeys(t[0] + Flatten(rest)) == ChainKeys(t[0]) + ChainKeys(Flatten(rest)) by {
        JoinKeys(t[0], Flatten(rest));
      }
      FirstKeys(t);
    }
  }

  lemma JoinKeys<V>(c: Chain<V>, d: Chain<V>)
    ensures ChainKeys(c + d) == ChainKeys(c) + ChainKeys(d)
  {
    var e := c + d;
    forall key | key in ChainKeys(c) + ChainKeys(d) ensures key in ChainKeys(e) {
      if key in ChainKeys(c) {
        var j :| 0 <= j < |c| && c[j].key == key;
        assert e[j].key == key;
      } else {
        var j :| 0 <= j < |d| && d[j].key == key;
        assert e[|c| + j].key == key;
      }
    }
  }

  lemma FirstKeys<V>(t: Table<V>)
    requires t != []
    ensures KeysOf(t) == ChainKeys(t[0]) + KeysOf(t[1..])
  {
    forall key | key in KeysOf(t) ensures key in ChainKeys(t[0]) + KeysOf(t[1..]) {
      var b, j :| 0 <= b < |t| && 0 <= j < |t[b]| && t[b][j].key == key;
      if b > 0 { assert t[1..][b - 1][j].key == key; }
    }
    forall key | key in KeysOf(t[1..]) ensures key in KeysOf(t) {
      var b, j :| 0 <= b < |t[1..]| && 0 <= j < |t[1..][b]| && t[1..][b][j].key == key;
      assert t[b + 1][j].key == key;
    }
  }

  /** The number of entries is the number of keys of the map. */
  lemma EntryCount<V>(t: Table<V>)
    requires TableOk(t)
    ensures |Flatten(t)| == |Contents(t)|
  {
    forall i | 0 <= i < |t| ensures ChainOk(t[i], 0 + i, |t|) { BucketAt(t, |t|, i); }
    FlattenDistinct(t, 0, |t|);
    DistinctCount(Flatten(t));
    FlattenKeys(t);
    ContentsAre(t);
    assert |Contents(t).Keys| == |Contents(t)|;
  }

  lemma OwnedAround<V>(t: Table<V>, b: nat, c: Chain<V>, v: V)
    requires b < |t|
    ensures Owned(t[b := c], v) + Held(t[b], v) == Owned(t, v) + Held(c, v)
  {
    var u := t[b := c];
    FlattenAround(t, b);
    FlattenAround(u, b);
    assert u[..b] == t[..b] && u[b + 1..] == t[b + 1..];
    var x, y := Flatten(t[..b]), Flatten(t[b + 1..]);
    HeldJoin(x + t[b], y, v);
    HeldJoin(x, t[b], v);
    HeldJoin(x + c, y, v);
    HeldJoin(x, c, v);
  }

  /** The value that loses its place when a key is overwritten or removed. */
  function Lapsed<V>(r: Option<V>): seq<V> {
    if r.Some? then [r.value] else []
  }

  lemma ChainPutHeld<V>(c: Chain<V>, key: Key, value: V, v: V)
    ensures Held(ChainPut(c, key, value), v) + Count(Lapsed(ChainLookup(c, key)), v) == Held(c, v) + Count([value], v)
  {
    var j := Find(c, key);
    CountOne(value, v);
    if j < |c| {
      var a, b := c[..j], c[j + 1..];
      CountOne(c[j].value, v);
      assert c == a + [c[j]] + b;
      HeldAround(a, c[j], b, v);
      assert ChainPut(c, key, value) == a + [Entry(key, value)] + b;
      HeldAround(a, Entry(key, value), b, v);
    } else {
      HeldJoin(c, [Entry(key, value)], v);
      HeldOne(Entry(key, value), v);
    }
  }

  lemma ChainDropHeld<V>(c: Chain<V>, key: Key, v: V)
    ensures Held(ChainDrop(c, key), v) + Count(Lapsed(ChainLookup(c, key)), v) == Held(c, v)
  {
    var j := Find(c, key);
    if j < |c| {
      var a, b := c[..j], c[j + 1..];
      CountOne(c[j].value, v);
      assert c == a + [c[j]] + b;
      HeldAround(a, c[j], b, v);
      HeldJoin(a, b, v);
    }
  }

  /** Inserting adds the new value and gives up the one it replaces. */
  lemma PutOwned<V>(t: Table<V>, key: Key, value: V, v: V)
    requires |t| > 0
    ensures Owned(Put(t, key, value), v) + Count(Lapsed(Lookup(t, key)), v) == Owned(t, v) + Count([value], v)
  {
    var b := Bucket(key, |t|);
    OwnedAround(t, b, ChainPut(t[b], key, value), v);
    ChainPutHeld(t[b], key, value, v);
  }

  /** Removing gives up the value removed. */
  lemma DropOwned<V>(t: Table<V>, key: Key, v: V)
    requires |t| > 0
    ensures Owned(Drop(t, key), v) + Count(Lapsed(Lookup(t, key)), v) == Owned(t, v)
  {
    var b := Bucket(key, |t|);
    OwnedAround(t, b, ChainDrop(t[b], key), v);
    ChainDropHeld(t[b], key, v);
  }

  // ----- whole runs -----

  datatype Op<V> = Insert(key: Key, value: Option<V>, alloc: bool) | Remove(key: Key) | Delete

  /** A table with the values ever handed in and the values freed so far, in order. */
  datatype Ledger<V> = Ledger(table: Table<V>, handed: seq<V>, freed: seq<V>)

  function EmptyTable<V>(n: nat): Table<V> {
    seq(n, _ => [])
  }

  /** An insertion of an empty key or a null value, or one that finds no memory, changes nothing. */
  predicate Accepted<V>(op: Op<V>) {
    op.Insert? && op.key != [] && op.value.Some? && op.alloc
  }

  /** What each operation does; an overwritten, removed or deleted value is freed there and then. */
  function Apply<V>(l: Ledger<V>, op: Op<V>): Ledger<V>
    requires |l.table| > 0
  {
    match op
    case Insert(key, value, _) =>
      if !Accepted(op) then l
      else Ledger(Put(l.table, key, value.value), l.handed + [value.value], l.freed + Lapsed(Lookup(l.table, key)))
    case Remove(key) =>
      if key == [] then l else Ledger(Drop(l.table, key), l.handed, l.freed + Lapsed(Lookup(l.table, key)))
    case Delete => Ledger(EmptyTable(|l.table|), l.handed, l.freed + ValuesOf(Flatten(l.table)))
  }

  /** The same operations on a plain finite map. */
  function MapApply<V>(m: map<Key, V>, op: Op<V>): map<Key, V> {
    match op
    case Insert(key, value, alloc) => if key != [] && value.Some? && alloc then m[key := value.value] else m
    case Remove(key) => if key == [] then m else m - {key}
    case Delete => map[]
  }

  function ApplyAll<V>(l: Ledger<V>, ops: seq<Op<V>>): (r: Ledger<V>)
    requires |l.table| > 0
    ensures |r.table| == |l.table|
  {
    if ops == [] then l else Apply(ApplyAll(l, ops[..|ops| - 1]), ops[|ops| - 1])
  }

  function MapApplyAll<V>(m: map<Key, V>, ops: seq<Op<V>>): map<Key, V> {
    if ops == [] then m else MapApply(MapApplyAll(m, ops[..|ops| - 1]), ops[|ops| - 1])
  }

  /** The value has been handed in as often as it has been freed and is stored. */
  ghost predicate Balanced<V>(l: Ledger<V>, v: V) {
    Count(l.handed, v) == Count(l.freed, v) + Owned(l.table, v)
  }

  lemma EmptyTableOk<V>(n: nat)
    requires n > 0
    ensures TableOk<V>(EmptyTable(n)) && Contents<V>(EmptyTable(n)) == map[]
    ensures Flatten<V>(EmptyTable(n)) == []
  {
    var t: Table<V> := EmptyTable(n);
    BucketsIntro(t, n);
    forall key ensures Lookup(t, key) == None {}
    ContentsUnique(t, map[]);
    FlattenEmpty<V>(n);
  }

  lemma {:induction false} FlattenEmpty<V>(n: nat)
    ensures Flatten<V>(EmptyTable(n)) == []
  {
    if n == 0 {
    } else {
      FlattenEmpty<V>(n - 1);
      assert EmptyTable<V>(n)[1..] == EmptyTable<V>(n - 1);
    }
  }

  lemma ApplyRefines<V>(l: Ledger<V>, op: Op<V>)
    requires TableOk(l.table)
    ensures TableOk(Apply(l, op).table)
    ensures Contents(Apply(l, op).table) == MapApply(Contents(l.table), op)
  {
    match op
    case Insert(key, value, _) => if Accepted(op) { PutRefines(l.table, key, value.value); }
    case Remove(key) => DropRefines(l.table, key);
    case Delete => EmptyTableOk<V>(|l.table|);
  }

  lemma BalanceKept<V>(l: Ledger<V>, table: Table<V>, added: seq<V>, out: seq<V>, v: V)
    requires Balanced(l, v) && Owned(table, v) + Count(out, v) == Owned(l.table, v) + Count(added, v)
    ensures Balanced(Ledger(table, l.handed + added, l.freed + out), v)
  {
    CountJoin(l.handed, added, v);
    CountJoin(l.freed, out, v);
  }

  lemma ApplyBalances<V>(l: Ledger<V>, op: Op<V>, v: V)
    requires TableOk(l.table) && Balanced(l, v)
    ensures Balanced(Apply(l, op), v)
  {
    assert l.handed + [] == l.handed;
    match op
    case Insert(key, value, _) =>
      if Accepted(op) {
        PutOwned(l.table, key, value.value, v);
        BalanceKept(l, Put(l.table, key, value.value), [value.value], Lapsed(Lookup(l.table, key)), v);
      }
    case Remove(key) =>
      DropOwned(l.table, key, v);
      BalanceKept(l, Drop(l.table, key), [], Lapsed(Lookup(l.table, key)), v);
    case Delete =>
      EmptyTableOk<V>(|l.table|);
      BalanceKept(l, EmptyTable(|l.table|), [], ValuesOf(Flatten(l.table)), v);
  }

  /** Over every sequence of operations the table refines the finite map, and every key sits in its
      bucket exactly once. */
  lemma {:induction false} RunRefines<V>(n: nat, ops: seq<Op<V>>)
    requires n > 0
    ensures var l := ApplyAll(Ledger(EmptyTable(n), [], []), ops);
      TableOk(l.table) && Contents(l.table) == MapApplyAll(map[], ops)
  {
    if ops == [] {
      EmptyTableOk<V>(n);
    } else {
      var before := ApplyAll(Ledger(EmptyTable(n), [], []), ops[..|ops| - 1]);
      RunRefines(n, ops[..|ops| - 1]);
      ApplyRefines(before, ops[|ops| - 1]);
    }
  }

  /** Over every sequence of operations every value handed in is accounted for. */
  lemma {:induction false} RunBalances<V>(n: nat, ops: seq<Op<V>>, v: V)
    requires n > 0
    ensures Balanced(ApplyAll(Ledger(EmptyTable(n), [], []), ops), v)
  {
    if ops == [] {
      EmptyTableOk<V>(n);
    } else {
      var before := ApplyAll(Ledger(EmptyTable(n), [], []), ops[..|ops| - 1]);
      RunRefines(n, ops[..|ops| - 1]);
      RunBalances(n, ops[..|ops| - 1], v);
      ApplyBalances(before, ops[|ops| - 1], v);
    }
  }

  /** A value handed in once is freed at most once, is not stored once it has been freed, and is not
      lost: it is stored until it is freed. */
  lemma FreedOnce<V>(n: nat, ops: seq<Op<V>>, v: V)
    requires n > 0 && Count(ApplyAll(Ledger(EmptyTable(n), [], []), ops).handed, v) == 1
    ensures var l := ApplyAll(Ledger(EmptyTable(n), [], []), ops);
      Count(l.freed, v) + Owned(l.table, v) == 1
  {
    RunBalances(n, ops, v);
  }
}
