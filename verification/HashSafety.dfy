/** Values that the hash map frees while it still stores them: exactly when that happens, and what callers
    have to avoid. */
module HashSafety {
  import opened Common
  import opened HashTable
  import opened HashLedger
  import opened HashIteration
  import opened HashRuns

  /** The act frees the value and leaves it stored. */
  ghost predicate FreesStored<V>(l: Ledger<V>, act: Act<V>, v: V)
    requires |l.table| > 0
  {
    Count(Perform(l, act).freed, v) > Count(l.freed, v) && Owned(Perform(l, act).table, v) > 0
  }

  /** Of the entries, one that is shown and removed has the value. */
  ghost predicate RemovesValue<V>(c: Chain<V>, script: Script, n: nat, v: V) {
    exists j :: 0 <= j < n && j < |c| && Removes(script, j) && c[j].value == v
  }

  /** And one that is not shown, or shown and not removed. */
  ghost predicate SparesValue<V>(c: Chain<V>, script: Script, n: nat, v: V) {
    exists j :: 0 <= j < |c| && !(j < n && Removes(script, j)) && c[j].value == v
  }

  /** The condition, before an act, under which it frees the value and leaves it stored: it takes away one
      of several copies, or puts the value in its own place. */
  ghost predicate Guard<V>(t: Table<V>, act: Act<V>, v: V)
    requires |t| > 0
  {
    match act
    case Do(op) =>
      (match op
       case Insert(key, value, _) =>
         Accepted(op) && Lookup(t, key) == Some(v) && (value == Some(v) || Owned(t, v) >= 2)
       case Remove(key) => key != [] && Lookup(t, key) == Some(v) && Owned(t, v) >= 2
       case Delete => false)
    case Iterate(script, end) =>
      Ends(t, end) && RemovesValue(Flatten(t), script, ShownCount(t, end), v)
      && SparesValue(Flatten(t), script, ShownCount(t, end), v)
  }

  lemma {:induction false} CountIn<V>(s: seq<V>, v: V)
    ensures Count(s, v) > 0 <==> exists j :: 0 <= j < |s| && s[j] == v
  {
    if s == [] {
    } else {
      var k := |s| - 1;
      CountIn(s[..k], v);
      if s[k] != v && exists j :: 0 <= j < |s| && s[j] == v {
        var j :| 0 <= j < |s| && s[j] == v;
        assert s[..k][j] == v;
      }
    }
  }

  lemma {:induction false} ValuesAt<V>(c: Chain<V>, j: nat)
    requires j < |c|
    ensures |ValuesOf(c)| == |c| && ValuesOf(c)[j] == c[j].value
  {
    var k := |c| - 1;
    if k == 0 {
    } else {
      ValuesAt(c[..k], if j < k then j else 0);
    }
  }

  lemma HeldIn<V>(c: Chain<V>, v: V)
    ensures Held(c, v) > 0 <==> exists j :: 0 <= j < |c| && c[j].value == v
  {
    var s := ValuesOf(c);
    CountIn(s, v);
    if c != [] { ValuesAt(c, 0); }
    forall j | 0 <= j < |c| ensures |s| == |c| && s[j] == c[j].value { ValuesAt(c, j); }
    if Held(c, v) > 0 {
      var j :| 0 <= j < |s| && s[j] == v;
      assert c[j].value == v;
    }
  }

  lemma StoredIsOwned<V>(t: Table<V>, key: Key, v: V)
    requires TableOk(t) && Lookup(t, key) == Some(v)
    ensures Owned(t, v) > 0
  {
    FlattenLookup(t, key);
    assert Flatten(t)[Find(Flatten(t), key)].value == v;
    HeldIn(Flatten(t), v);
  }

  lemma {:induction false} FreedMore<V>(freed: seq<V>, c: Chain<V>, script: Script, n: nat, v: V)
    requires n <= |c|
    ensures Count(FreedBy(freed, c, script, 0, n), v) >= Count(freed, v)
    ensures Count(FreedBy(freed, c, script, 0, n), v) > Count(freed, v) <==> RemovesValue(c, script, n, v)
  {
    if n == 0 {
    } else {
      FreedMore(freed, c, script, n - 1, v);
      CountJoin(FreedBy(freed, c, script, 0, n - 1), [c[n - 1].value], v);
      CountOne(c[n - 1].value, v);
      assert RemovesValue(c, script, n, v) <==>
        RemovesValue(c, script, n - 1, v) || (Removes(script, n - 1) && c[n - 1].value == v);
    }
  }

  lemma {:induction false} SieveHeld<V>(c: Chain<V>, script: Script, n: nat, v: V)
    requires n <= |c|
    ensures Held(Sieve(c, script, 0, n), v) > 0 <==> exists j :: 0 <= j < n && !Removes(script, j) && c[j].value == v
  {
    if n == 0 {
    } else {
      SieveHeld(c, script, n - 1, v);
      HeldJoin(Sieve(c, script, 0, n - 1), [c[n - 1]], v);
      HeldOne(c[n - 1], v);
    }
  }

  lemma KeptHeld<V>(c: Chain<V>, script: Script, n: nat, v: V)
    requires n <= |c|
    ensures Held(Sieve(c, script, 0, n) + c[n..], v) > 0 <==> SparesValue(c, script, n, v)
  {
    HeldJoin(Sieve(c, script, 0, n), c[n..], v);
    SieveHeld(c, script, n, v);
    HeldIn(c[n..], v);
    if Held(c[n..], v) > 0 {
      var j :| 0 <= j < |c[n..]| && c[n..][j].value == v;
      assert c[n + j].value == v;
    }
    if SparesValue(c, script, n, v) {
      var j :| 0 <= j < |c| && !(j < n && Removes(script, j)) && c[j].value == v;
      if j >= n { assert c[n..][j - n].value == v; }
    }
  }

  lemma SweepFrees<V>(l: Ledger<V>, script: Script, end: End, v: V)
    requires TableOk(l.table) && Ends(l.table, end)
    ensures FreesStored(l, Iterate(script, end), v) <==> Guard(l.table, Iterate(script, end), v)
  {
    var all, n := Flatten(l.table), ShownCount(l.table, end);
    SweptIs(l.table, script, end, l.freed, []);
    FreedMore(l.freed, all, script, n, v);
    KeptHeld(all, script, n, v);
  }

  lemma OpFrees<V>(l: Ledger<V>, op: Op<V>, v: V)
    requires TableOk(l.table)
    ensures FreesStored(l, Do(op), v) <==> Guard(l.table, Do(op), v)
  {
    match op
    case Insert(key, value, _) =>
      if Accepted(op) {
        PutOwned(l.table, key, value.value, v);
        CountOne(value.value, v);
        LapsedFrees(l, key, v);
        if Lookup(l.table, key) == Some(v) { StoredIsOwned(l.table, key, v); }
      }
    case Remove(key) =>
      DropOwned(l.table, key, v);
      LapsedFrees(l, key, v);
    case Delete => EmptyStarts(|l.table|, v);
  }

  lemma LapsedFrees<V>(l: Ledger<V>, key: Key, v: V)
    requires TableOk(l.table)
    ensures var out := Lapsed(Lookup(l.table, key));
      && Count(l.freed + out, v) == Count(l.freed, v) + Count(out, v)
      && Count(out, v) == if Lookup(l.table, key) == Some(v) then 1 else 0
  {
    var out := Lapsed(Lookup(l.table, key));
    CountJoin(l.freed, out, v);
    if out != [] { CountOne(out[0], v); }
  }

  /** An act frees a value and leaves it stored if and only if its guard holds. */
  lemma FreesStoredIff<V>(l: Ledger<V>, act: Act<V>, v: V)
    requires TableOk(l.table)
    ensures FreesStored(l, act, v) <==> Guard(l.table, act, v)
  {
    match act
    case Do(op) => OpFrees(l, op, v);
    case Iterate(script, end) => if Ends(l.table, end) { SweepFrees(l, script, end, v); }
  }

  /** No act of the run frees the value and leaves it stored. */
  ghost predicate NeverFreesStored<V>(l: Ledger<V>, acts: seq<Act<V>>, v: V)
    requires |l.table| > 0
  {
    acts == []
    || var front := acts[..|acts| - 1];
       NeverFreesStored(l, front, v) && !FreesStored(PerformAll(l, front), acts[|acts| - 1], v)
  }

  /** The guard of every act is false when its turn comes. */
  ghost predicate Avoids<V>(l: Ledger<V>, acts: seq<Act<V>>, v: V)
    requires |l.table| > 0
  {
    acts == []
    || var front := acts[..|acts| - 1];
       Avoids(l, front, v) && !Guard(PerformAll(l, front).table, acts[|acts| - 1], v)
  }

  /** Over every run: the value is never freed while it stays stored if and only if every act avoids its
      guard. */
  lemma {:induction false} NeverFreesStoredIff<V>(l: Ledger<V>, acts: seq<Act<V>>, v: V)
    requires TableOk(l.table)
    ensures NeverFreesStored(l, acts, v) <==> Avoids(l, acts, v)
  {
    if acts == [] {
    } else {
      var front := acts[..|acts| - 1];
      NeverFreesStoredIff(l, front, v);
      MixedRunRefines(l, front);
      FreesStoredIff(PerformAll(l, front), acts[|acts| - 1], v);
    }
  }

  // ----- what callers can do about it -----

  ghost predicate HandsIn<V>(act: Act<V>, v: V) {
    act.Do? && Accepted(act.op) && act.op.value == Some(v)
  }

  /** The value is never handed in while the table holds it. */
  ghost predicate NeverHandedWhileHeld<V>(l: Ledger<V>, acts: seq<Act<V>>, v: V)
    requires |l.table| > 0
  {
    acts == []
    || var front, last := acts[..|acts| - 1], acts[|acts| - 1];
       NeverHandedWhileHeld(l, front, v) && (HandsIn(last, v) ==> Owned(PerformAll(l, front).table, v) == 0)
  }

  lemma OpOwned<V>(l: Ledger<V>, op: Op<V>, v: V)
    requires TableOk(l.table)
    ensures Owned(Apply(l, op).table, v) <= Owned(l.table, v) + if HandsIn(Do(op), v) then 1 else 0
  {
    match op
    case Insert(key, value, _) =>
      if Accepted(op) {
        PutOwned(l.table, key, value.value, v);
        CountOne(value.value, v);
      }
    case Remove(key) => DropOwned(l.table, key, v);
    case Delete => EmptyStarts(|l.table|, v);
  }

  lemma SweepOwned<V>(l: Ledger<V>, script: Script, end: End, v: V)
    requires TableOk(l.table) && Ends(l.table, end)
    ensures Owned(Perform(l, Iterate(script, end)).table, v) <= Owned(l.table, v)
  {
    var r, n := Perform(l, Iterate(script, end)), ShownCount(l.table, end);
    SweptIs(l.table, script, end, l.freed, []);
    FreedMore(l.freed, Flatten(l.table), script, n, v);
    IterationConserves(l.table, script, n, r.table, l.freed, r.freed, [], SweptShown([], l.table, end), v);
  }

  lemma OwnedStep<V>(l: Ledger<V>, act: Act<V>, v: V)
    requires TableOk(l.table)
    ensures Owned(Perform(l, act).table, v) <= Owned(l.table, v) + if HandsIn(act, v) then 1 else 0
  {
    match act
    case Do(op) => OpOwned(l, op, v);
    case Iterate(script, end) => if Ends(l.table, end) { SweepOwned(l, script, end, v); }
  }

  /** The value at two places is held twice. */
  lemma HeldTwice<V>(c: Chain<V>, i: nat, j: nat, v: V)
    requires i < j < |c| && c[i].value == v && c[j].value == v
    ensures Held(c, v) >= 2
  {
    var a, b := c[..j], c[j + 1..];
    assert c == a + [c[j]] + b;
    HeldAround(a, c[j], b, v);
    assert a[i].value == v;
    HeldIn(a, v);
  }

  lemma SweepKeepsOne<V>(t: Table<V>, script: Script, end: End, v: V)
    requires TableOk(t) && Ends(t, end) && Guard(t, Iterate(script, end), v)
    ensures Owned(t, v) >= 2
  {
    var all, n := Flatten(t), ShownCount(t, end);
    var i :| 0 <= i < n && i < |all| && Removes(script, i) && all[i].value == v;
    var j :| 0 <= j < |all| && !(j < n && Removes(script, j)) && all[j].value == v;
    HeldTwice(all, if i < j then i else j, if i < j then j else i, v);
  }

  /** A value that is stored has a key under which it is found. */
  lemma StoredUnder<V>(t: Table<V>, v: V) returns (key: Key)
    requires TableOk(t) && Owned(t, v) > 0
    ensures key != [] && Lookup(t, key) == Some(v)
  {
    var all := Flatten(t);
    HeldIn(all, v);
    var j :| 0 <= j < |all| && all[j].value == v;
    key := all[j].key;
    TableDistinct(t);
    FindAt(all, key, j);
    FlattenLookup(t, key);
    var b := Bucket(key, |t|);
    BucketAt(t, |t|, b);
  }

  /** In every state: no act, but for handing the value in, frees it and leaves it stored, if and only if it
      is stored at most once. */
  lemma OneCopyIsSafe<V>(l: Ledger<V>, v: V)
    requires TableOk(l.table)
    ensures (forall act :: !HandsIn(act, v) ==> !FreesStored(l, act, v)) <==> Owned(l.table, v) <= 1
  {
    if Owned(l.table, v) <= 1 {
      forall act | !HandsIn(act, v) ensures !FreesStored(l, act, v) {
        FreesStoredIff(l, act, v);
        if act.Iterate? && Guard(l.table, act, v) { SweepKeepsOne(l.table, act.script, act.end, v); }
      }
    } else {
      var key := StoredUnder(l.table, v);
      var act: Act<V> := Do(Remove(key));
      FreesStoredIff(l, act, v);
      assert !HandsIn(act, v) && FreesStored(l, act, v);
    }
  }

  lemma StepSafe<V>(l: Ledger<V>, act: Act<V>, v: V)
    requires TableOk(l.table) && Owned(l.table, v) <= 1 && (HandsIn(act, v) ==> Owned(l.table, v) == 0)
    ensures Owned(Perform(l, act).table, v) <= 1 && !FreesStored(l, act, v)
  {
    OwnedStep(l, act, v);
    if HandsIn(act, v) {
      FreesStoredIff(l, act, v);
      if Lookup(l.table, act.op.key) == Some(v) { StoredIsOwned(l.table, act.op.key, v); }
    } else {
      OneCopyIsSafe(l, v);
    }
  }

  /** Over every run from a table that has the value at most once: if it is never handed in while it is held,
      it is stored at most once at any time and never freed while it stays stored. */
  lemma {:induction false} NeverTwiceIsSafe<V>(l: Ledger<V>, acts: seq<Act<V>>, v: V)
    requires TableOk(l.table) && Owned(l.table, v) <= 1 && NeverHandedWhileHeld(l, acts, v)
    ensures Owned(PerformAll(l, acts).table, v) <= 1 && NeverFreesStored(l, acts, v)
  {
    if acts == [] {
    } else {
      var front, last := acts[..|acts| - 1], acts[|acts| - 1];
      NeverTwiceIsSafe(l, front, v);
      MixedRunRefines(l, front);
      StepSafe(PerformAll(l, front), last, v);
    }
  }

  /** And conversely: handing a value in while it is held frees it at once while it stays stored, or leaves it
      stored twice, so that a removal can. */
  lemma HandedTwiceBreaks<V>(l: Ledger<V>, act: Act<V>, v: V)
    requires TableOk(l.table) && HandsIn(act, v) && Owned(l.table, v) > 0
    ensures FreesStored(l, act, v) || exists key :: FreesStored(Perform(l, act), Do(Remove(key)), v)
  {
    var key, r := act.op.key, Perform(l, act);
    PerformRefines(l, act, Contents(l.table));
    FreesStoredIff(l, act, v);
    if Lookup(l.table, key) != Some(v) {
      PutOwned(l.table, key, v, v);
      CountOne(v, v);
      LapsedFrees(l, key, v);
      var other := StoredUnder(r.table, v);
      FreesStoredIff(r, Do(Remove(other)), v);
      assert FreesStored(r, Do(Remove(other)), v);
    }
  }

  /** A value handed in again under the key it is stored under is freed, and is still stored. */
  lemma ReinsertedIsFreed<V>(l: Ledger<V>, key: Key, v: V)
    requires TableOk(l.table) && key != [] && Lookup(l.table, key) == Some(v)
    ensures var r := Apply(l, Insert(key, Some(v), true));
      r.freed == l.freed + [v] && Lookup(r.table, key) == Some(v) && FreesStored(l, Do(Insert(key, Some(v), true)), v)
  {
    PutLookup(l.table, key, v, key);
    FreesStoredIff(l, Do(Insert(key, Some(v), true)), v);
  }

  /** Whenever two keys share a value, the removal of one frees it, and it is still found under the other. */
  lemma SharedIsFreed<V>(l: Ledger<V>, a: Key, b: Key, v: V)
    requires TableOk(l.table) && a != [] && a != b && Lookup(l.table, a) == Some(v) && Lookup(l.table, b) == Some(v)
    ensures FreesStored(l, Do(Remove(a)), v) && Lookup(Apply(l, Remove(a)).table, b) == Some(v)
  {
    DropLookup(l.table, a, b);
    DropOk(l.table, a);
    LapsedFrees(l, a, v);
    StoredIsOwned(Drop(l.table, a), b, v);
  }

  /** And from every table two insertions lead there. */
  lemma SharingIsReached<V>(l: Ledger<V>, a: Key, b: Key, v: V)
    requires TableOk(l.table) && a != [] && b != [] && a != b
    ensures var r := Apply(Apply(l, Insert(a, Some(v), true)), Insert(b, Some(v), true));
      TableOk(r.table) && Lookup(r.table, a) == Some(v) && Lookup(r.table, b) == Some(v)
  {
    var t := Put(l.table, a, v);
    PutOk(l.table, a, v);
    PutOk(t, b, v);
    PutLookup(l.table, a, v, a);
    PutLookup(t, b, v, a);
    PutLookup(t, b, v, b);
  }
}
