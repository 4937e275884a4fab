/** What an iteration does to the finite map, and runs that mix iterations with the other operations. */
module HashRuns {
  import opened Common
  import opened HashTable
  import opened HashLedger
  import opened HashIteration

  // ----- the map and the entries in the order of iteration -----

  lemma TableDistinct<V>(t: Table<V>)
    requires TableOk(t)
    ensures Distinct(Flatten(t))
  {
    forall i | 0 <= i < |t| ensures ChainOk(t[i], 0 + i, |t|) { BucketAt(t, |t|, i); }
    FlattenDistinct(t, 0, |t|);
  }

  lemma FindKey<V>(c: Chain<V>, key: Key)
    ensures Find(c, key) < |c| <==> key in ChainKeys(c)
  {
    var j := Find(c, key);
    if j < |c| { assert c[j].key in ChainKeys(c); }
  }

  lemma FlattenHas<V>(t: Table<V>, key: Key)
    requires TableOk(t)
    ensures key in ChainKeys(Flatten(t)) <==> Lookup(t, key).Some?
  {
    FlattenKeys(t);
    ContentsAre(t);
  }

  /** A search through all entries finds what a search in the bucket of the key finds. */
  lemma FlattenLookup<V>(t: Table<V>, key: Key)
    requires TableOk(t)
    ensures ChainLookup(Flatten(t), key) == Lookup(t, key)
  {
    FindKey(Flatten(t), key);
    FlattenHas(t, key);
    if Lookup(t, key).Some? {
      var b := Bucket(key, |t|);
      TableDistinct(t);
      BucketWithin(t, b);
      WithinFinds(Flatten(t), t[b], EntriesBefore(t, b), key);
    }
  }

  lemma WithinFinds<V>(all: Chain<V>, c: Chain<V>, n: nat, key: Key)
    requires Within(all, c, n) && Distinct(all) && Find(c, key) < |c|
    ensures ChainLookup(all, key) == ChainLookup(c, key)
  {
    var j := Find(c, key);
    assert all[n + j] == c[j];
    FindAt(all, key, n + j);
  }

  /** The keys of the entries, among the first n, that the callback removed. */
  function RemovedKeys<V>(c: Chain<V>, script: Script, n: nat): set<Key>
    requires n <= |c|
  {
    if n == 0 then {}
    else if Removes(script, n - 1) then RemovedKeys(c, script, n - 1) + {c[n - 1].key}
    else RemovedKeys(c, script, n - 1)
  }

  lemma DropFromChain<V>(c: Chain<V>, key: Key, other: Key)
    requires Distinct(c)
    ensures Distinct(ChainDrop(c, key))
    ensures ChainLookup(ChainDrop(c, key), other) == if other == key then None else ChainLookup(c, other)
  {
    if Find(c, key) < |c| { DropDistinct(c, Find(c, key)); }
    ChainDropLookup(c, key, other);
  }

  lemma KeptStep<V>(c: Chain<V>, script: Script, j: nat)
    requires j < |c| && Distinct(Kept(c, script, 0, j))
    ensures Kept(c, script, 0, j + 1)
         == if Removes(script, j) then ChainDrop(Kept(c, script, 0, j), c[j].key) else Kept(c, script, 0, j)
  {
    var k, s := Kept(c, script, 0, j), Sieve(c, script, 0, j);
    assert k == s + c[j..] by { KeptIs(c, script, 0, j); }
    TakeOut(s, c, j);
    FindAt(k, c[j].key, |s|);
  }

  lemma KeptNext<V>(c: Chain<V>, script: Script, j: nat, key: Key)
    requires j < |c| && Distinct(Kept(c, script, 0, j))
    ensures Distinct(Kept(c, script, 0, j + 1))
    ensures ChainLookup(Kept(c, script, 0, j + 1), key)
         == if Removes(script, j) && key == c[j].key then None else ChainLookup(Kept(c, script, 0, j), key)
  {
    KeptStep(c, script, j);
    DropFromChain(Kept(c, script, 0, j), c[j].key, key);
  }

  /** A chain of distinct keys in which a search finds the entries of another, but for some keys. */
  ghost predicate Without<V>(d: Chain<V>, c: Chain<V>, keys: set<Key>, key: Key) {
    Distinct(d) && ChainLookup(d, key) == if key in keys then None else ChainLookup(c, key)
  }

  lemma WithoutNext<V>(c: Chain<V>, script: Script, j: nat, key: Key)
    requires j < |c| && Without(Kept(c, script, 0, j), c, RemovedKeys(c, script, j), key)
    ensures Without(Kept(c, script, 0, j + 1), c, RemovedKeys(c, script, j + 1), key)
  {
    KeptNext(c, script, j, key);
  }

  lemma {:induction false} KeptLookup<V>(c: Chain<V>, script: Script, j: nat, key: Key)
    requires j <= |c| && Distinct(c)
    ensures Without(Kept(c, script, 0, j), c, RemovedKeys(c, script, j), key)
  {
    if j == 0 {
    } else {
      KeptLookup(c, script, j - 1, key);
      WithoutNext(c, script, j - 1, key);
    }
  }

  /** The map after an iteration: the map before it without the keys of the shown entries that the callback
      removed. */
  lemma IterationRefines<V>(t0: Table<V>, script: Script, n: nat, t: Table<V>, freed0: seq<V>, freed: seq<V>,
                            shown0: Chain<V>, shown: Chain<V>)
    requires TableOk(t0) && TableOk(t) && Iterated(t0, script, n, t, freed0, freed, shown0, shown)
    ensures Contents(t) == Contents(t0) - RemovedKeys(Flatten(t0), script, n)
  {
    var m := Contents(t0) - RemovedKeys(Flatten(t0), script, n);
    TableDistinct(t0);
    KeptIs(Flatten(t0), script, 0, n);
    forall key ensures MapLookup(m, key) == Lookup(t, key) {
      KeptLookup(Flatten(t0), script, n, key);
      FlattenLookup(t0, key);
      FlattenLookup(t, key);
      ContentsLookup(t0, key);
    }
    ContentsUnique(t, m);
  }

  // ----- an iteration keeps the table well formed -----

  lemma {:induction false} KeptOk<V>(c: Chain<V>, script: Script, off: nat, j: nat, b: nat, n: nat)
    requires n > 0 && j <= |c| && ChainOk(c, b, n)
    ensures ChainOk(Kept(c, script, off, j), b, n)
  {
    if j == 0 {
    } else {
      var k, m := Kept(c, script, off, j - 1), |Sieve(c, script, off, j - 1)|;
      KeptOk(c, script, off, j - 1, b, n);
      if m < |k| {
        DropDistinct(k, m);
        DropInBucket(k, m, b, n);
      }
    }
  }

  /** The iteration does not come back to a bucket that it has left. */
  lemma {:induction false} BucketPassed<V>(t: Table<V>, script: Script, i: nat, b: nat)
    requires b < i <= |t|
    ensures TableKept(t, script, i)[b] == TableKept(t, script, b + 1)[b]
  {
    if b + 1 == i {
    } else {
      BucketPassed(t, script, i - 1, b);
    }
  }

  /** Every bucket is well formed when the iteration comes to bucket i. */
  lemma TableKeptOk<V>(t: Table<V>, script: Script, i: nat, b: nat)
    requires TableOk(t) && i <= |t| && b < |t|
    ensures ChainOk(TableKept(t, script, i)[b], b, |t|)
  {
    BucketAt(t, |t|, b);
    if b < i {
      BucketPassed(t, script, i, b);
      KeptOk(t[b], script, EntriesBefore(t, b), |t[b]|, b, |t|);
    } else {
      BucketToCome(t, script, i, b);
    }
  }

  /** Where an iteration ended: after all entries, or after some of one bucket. */
  datatype End = Finished | StoppedIn(bucket: nat, entry: nat)

  predicate Ends<V>(t: Table<V>, end: End) {
    end.StoppedIn? ==> end.bucket < |t| && end.entry <= |t[end.bucket]|
  }

  function ShownCount<V>(t: Table<V>, end: End): (n: nat)
    requires Ends(t, end)
    ensures n <= |Flatten(t)|
  {
    match end
    case Finished => TableFreedIs([], t, [], |t|); EntriesBefore(t, |t|)
    case StoppedIn(i, j) => BucketRoom(t, i); EntriesBefore(t, i) + j
  }

  function SweptTable<V>(t: Table<V>, script: Script, end: End): Table<V>
    requires Ends(t, end)
  {
    match end
    case Finished => TableKept(t, script, |t|)
    case StoppedIn(i, j) => TableMidway(t, script, i, j)
  }

  function SweptFreed<V>(freed: seq<V>, t: Table<V>, script: Script, end: End): seq<V>
    requires Ends(t, end)
  {
    match end
    case Finished => TableFreed(freed, t, script, |t|)
    case StoppedIn(i, j) => FreedBy(TableFreed(freed, t, script, i), t[i], script, EntriesBefore(t, i), j)
  }

  function SweptShown<V>(shown: Chain<V>, t: Table<V>, end: End): Chain<V>
    requires Ends(t, end)
  {
    match end
    case Finished => TableShown(shown, t, |t|)
    case StoppedIn(i, j) => ShownBy(TableShown(shown, t, i), t[i], j)
  }

  lemma SweptIs<V>(t: Table<V>, script: Script, end: End, freed: seq<V>, shown: Chain<V>)
    requires Ends(t, end)
    ensures Iterated(t, script, ShownCount(t, end), SweptTable(t, script, end), freed,
                     SweptFreed(freed, t, script, end), shown, SweptShown(shown, t, end))
  {
    var n, u := ShownCount(t, end), SweptTable(t, script, end);
    var f, s := SweptFreed(freed, t, script, end), SweptShown(shown, t, end);
    match end
    case Finished => IteratedAll(t, script, n, u, freed, f, shown, s);
    case StoppedIn(i, j) => IteratedPart(t, script, i, j, n, u, freed, f, shown, s);
  }

  lemma SweptBucket<V>(t: Table<V>, script: Script, end: End, b: nat)
    requires TableOk(t) && Ends(t, end) && b < |t|
    ensures ChainOk(SweptTable(t, script, end)[b], b, |t|)
  {
    match end
    case Finished => TableKeptOk(t, script, |t|, b);
    case StoppedIn(i, j) =>
      TableKeptOk(t, script, i, b);
      BucketAt(t, |t|, i);
      KeptOk(t[i], script, EntriesBefore(t, i), j, i, |t|);
  }

  /** After an iteration, wherever it ended, every key sits in its bucket exactly once. */
  lemma SweptOk<V>(t: Table<V>, script: Script, end: End)
    requires TableOk(t) && Ends(t, end)
    ensures TableOk(SweptTable(t, script, end)) && |SweptTable(t, script, end)| == |t|
  {
    var u := SweptTable(t, script, end);
    forall b | 0 <= b < |u| ensures ChainOk(u[b], b, |u|) { SweptBucket(t, script, end, b); }
    BucketsIntro(u, |u|);
  }

  // ----- mixed runs -----

  /** An operation, or an iteration with the script of its callback and the point where it ended. */
  datatype Act<V> = Do(op: Op<V>) | Iterate(script: Script, end: End)

  /** What each does to the table and the account of values; an end outside the table is none. */
  function Perform<V>(l: Ledger<V>, act: Act<V>): (r: Ledger<V>)
    requires |l.table| > 0
    ensures |r.table| == |l.table|
  {
    match act
    case Do(op) => Apply(l, op)
    case Iterate(script, end) =>
      if Ends(l.table, end)
      then Ledger(SweptTable(l.table, script, end), l.handed, SweptFreed(l.freed, l.table, script, end))
      else l
  }

  /** The same on a plain finite map, given the table for the order of iteration. */
  function MapPerform<V>(m: map<Key, V>, t: Table<V>, act: Act<V>): map<Key, V> {
    match act
    case Do(op) => MapApply(m, op)
    case Iterate(script, end) =>
      if Ends(t, end) then m - RemovedKeys(Flatten(t), script, ShownCount(t, end)) else m
  }

  /** The table stands for the map. */
  ghost predicate Refines<V>(t: Table<V>, m: map<Key, V>) {
    TableOk(t) && Contents(t) == m
  }

  lemma PerformRefines<V>(l: Ledger<V>, act: Act<V>, m: map<Key, V>)
    requires Refines(l.table, m)
    ensures Refines(Perform(l, act).table, MapPerform(m, l.table, act))
  {
    match act
    case Do(op) => ApplyRefines(l, op);
    case Iterate(script, end) =>
      if Ends(l.table, end) {
        var u, n := SweptTable(l.table, script, end), ShownCount(l.table, end);
        SweptOk(l.table, script, end);
        SweptIs(l.table, script, end, l.freed, []);
        IterationRefines(l.table, script, n, u, l.freed, SweptFreed(l.freed, l.table, script, end), [],
                         SweptShown([], l.table, end));
      }
  }

  lemma PerformBalances<V>(l: Ledger<V>, act: Act<V>, v: V)
    requires TableOk(l.table) && Balanced(l, v)
    ensures Balanced(Perform(l, act), v)
  {
    match act
    case Do(op) => ApplyBalances(l, op, v);
    case Iterate(script, end) =>
      if Ends(l.table, end) {
        var r := Perform(l, act);
        SweptIs(l.table, script, end, l.freed, []);
        IterationBalances(l, script, ShownCount(l.table, end), r.table, r.freed, [], SweptShown([], l.table, end), v);
      }
  }

  function EmptyLedger<V>(n: nat): Ledger<V> {
    Ledger(EmptyTable(n), [], [])
  }

  function PerformAll<V>(l: Ledger<V>, acts: seq<Act<V>>): (r: Ledger<V>)
    requires |l.table| > 0
    ensures |r.table| == |l.table|
  {
    if acts == [] then l else Perform(PerformAll(l, acts[..|acts| - 1]), acts[|acts| - 1])
  }

  /** The finite map that a run should lead to. */
  function MapPerformAll<V>(l: Ledger<V>, acts: seq<Act<V>>): map<Key, V>
    requires |l.table| > 0
  {
    if acts == [] then Contents(l.table)
    else
      var front := acts[..|acts| - 1];
      MapPerform(MapPerformAll(l, front), PerformAll(l, front).table, acts[|acts| - 1])
  }

  /** In every run of insertions, removals, deletions and iterations the table stays well formed and refines
      the finite map. */
  lemma {:induction false} MixedRunRefines<V>(l: Ledger<V>, acts: seq<Act<V>>)
    requires TableOk(l.table)
    ensures Refines(PerformAll(l, acts).table, MapPerformAll(l, acts))
  {
    if acts == [] {
    } else {
      var front := acts[..|acts| - 1];
      MixedRunRefines(l, front);
      PerformRefines(PerformAll(l, front), acts[|acts| - 1], MapPerformAll(l, front));
    }
  }

  /** And every value handed in is accounted for. */
  lemma {:induction false} MixedRunBalances<V>(l: Ledger<V>, acts: seq<Act<V>>, v: V)
    requires TableOk(l.table) && Balanced(l, v)
    ensures Balanced(PerformAll(l, acts), v)
  {
    if acts == [] {
    } else {
      var front := acts[..|acts| - 1];
      MixedRunRefines(l, front);
      MixedRunBalances(l, front, v);
      PerformBalances(PerformAll(l, front), acts[|acts| - 1], v);
    }
  }

  lemma EmptyStarts<V>(n: nat, v: V)
    requires n > 0
    ensures Refines(EmptyLedger<V>(n).table, map[]) && Balanced(EmptyLedger(n), v)
    ensures Owned(EmptyLedger<V>(n).table, v) == 0
  {
    EmptyTableOk<V>(n);
  }
}
