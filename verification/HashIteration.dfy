/** Iterating over a hash table while the callback removes entries it is shown. */
module HashIteration {
  import opened HashTable
  import opened HashLedger

  /** What the callback of an iteration does with the entry it is shown: removes it or not, and lets
      the iteration go on or not. */
  datatype Verdict = Verdict(remove: bool, proceed: bool)

  /** The verdicts of a callback in the order in which entries are shown to it. Whatever a callback
      does, and whatever it remembers, it shows in an iteration as one such script. */
  type Script = seq<Verdict>

  predicate Removes(script: Script, k: nat) {
    k < |script| && script[k].remove
  }

  /** The callback let the iteration go on after each of the n entries numbered from off. */
  predicate Unbroken(script: Script, off: nat, n: nat)
    requires off + n <= |script|
  {
    n == 0 || (Unbroken(script, off, n - 1) && script[off + n - 1].proceed)
  }

  /** The callback stopped the iteration at the n-th entry numbered from off, and not before. */
  predicate Stopped(script: Script, off: nat, n: nat)
    requires off + n <= |script|
  {
    0 < n && Unbroken(script, off, n - 1) && !script[off + n - 1].proceed
  }

  /** How the callback left off after n entries: letting the iteration go on after each, or stopping it
      at the last and not before. */
  predicate Halts(script: Script, off: nat, n: nat, proceed: bool) {
    off + n <= |script| && if proceed then Unbroken(script, off, n) else Stopped(script, off, n)
  }

  /** What is left of the first j entries of a chain, which were shown as numbers off, off + 1, ... */
  function Sieve<V>(c: Chain<V>, script: Script, off: nat, j: nat): Chain<V>
    requires j <= |c|
  {
    if j == 0 then []
    else if Removes(script, off + j - 1) then Sieve(c, script, off, j - 1)
    else Sieve(c, script, off, j - 1) + [c[j - 1]]
  }

  /** What is left of a chain of which the first j entries were shown, one entry taken out after another. */
  function Kept<V>(c: Chain<V>, script: Script, off: nat, j: nat): Chain<V>
    requires j <= |c|
  {
    if j == 0 then c
    else
      var k, m := Kept(c, script, off, j - 1), |Sieve(c, script, off, j - 1)|;
      if Removes(script, off + j - 1) && m < |k| then k[..m] + k[m + 1..] else k
  }

  /** The values freed, and the entries shown, grow by those of the first j entries of a chain. */
  function FreedBy<V>(freed: seq<V>, c: Chain<V>, script: Script, off: nat, j: nat): seq<V>
    requires j <= |c|
  {
    if j == 0 then freed
    else if Removes(script, off + j - 1) then FreedBy(freed, c, script, off, j - 1) + [c[j - 1].value]
    else FreedBy(freed, c, script, off, j - 1)
  }

  function ShownBy<V>(shown: Chain<V>, c: Chain<V>, j: nat): Chain<V>
    requires j <= |c|
  {
    if j == 0 then shown else ShownBy(shown, c, j - 1) + [c[j - 1]]
  }

  /** The entries not yet shown stand right after what those shown have left. */
  lemma {:induction false} KeptIs<V>(c: Chain<V>, script: Script, off: nat, j: nat)
    requires j <= |c|
    ensures Kept(c, script, off, j) == Sieve(c, script, off, j) + c[j..]
  {
    if j == 0 {
      Untouched(c);
    } else {
      KeptIs(c, script, off, j - 1);
      TakeOut(Sieve(c, script, off, j - 1), c, j - 1);
    }
  }

  lemma Untouched<V>(c: Chain<V>)
    ensures [] + c[0..] == c
  {}

  lemma TakeOut<V>(s: Chain<V>, c: Chain<V>, j: nat)
    requires j < |c|
    ensures var k, m := s + c[j..], |s|;
      m < |k| && k[m] == c[j] && k == s + [c[j]] + c[j + 1..] && k[..m] + k[m + 1..] == s + c[j + 1..]
  {}

  // What the iteration has done when it comes to bucket i.

  function EntriesBefore<V>(t: Table<V>, i: nat): nat
    requires i <= |t|
  {
    if i == 0 then 0 else EntriesBefore(t, i - 1) + |t[i - 1]|
  }

  function TableKept<V>(t: Table<V>, script: Script, i: nat): (r: Table<V>)
    requires i <= |t|
    ensures |r| == |t|
  {
    if i == 0 then t
    else TableKept(t, script, i - 1)[i - 1 := Kept(t[i - 1], script, EntriesBefore(t, i - 1), |t[i - 1]|)]
  }

  function TableFreed<V>(freed: seq<V>, t: Table<V>, script: Script, i: nat): seq<V>
    requires i <= |t|
  {
    if i == 0 then freed
    else FreedBy(TableFreed(freed, t, script, i - 1), t[i - 1], script, EntriesBefore(t, i - 1), |t[i - 1]|)
  }

  function TableShown<V>(shown: Chain<V>, t: Table<V>, i: nat): Chain<V>
    requires i <= |t|
  {
    if i == 0 then shown else ShownBy(TableShown(shown, t, i - 1), t[i - 1], |t[i - 1]|)
  }

  /** The buckets to come are as they were. */
  lemma {:induction false} BucketToCome<V>(t: Table<V>, script: Script, i: nat, b: nat)
    requires i <= b < |t|
    ensures TableKept(t, script, i)[b] == t[b]
  {
    if i == 0 {
    } else {
      BucketToCome(t, script, i - 1, b);
    }
  }

  lemma {:induction false} UnbrokenJoin(script: Script, n: nat, k: nat)
    requires n + k <= |script| && Unbroken(script, 0, n) && Unbroken(script, n, k)
    ensures Unbroken(script, 0, n + k)
  {
    if k == 0 {
    } else {
      UnbrokenJoin(script, n, k - 1);
    }
  }

  lemma HaltsJoin(script: Script, n: nat, k: nat, proceed: bool)
    requires Halts(script, 0, n, true) && Halts(script, n, k, proceed)
    ensures Halts(script, 0, n + k, proceed)
  {
    UnbrokenJoin(script, n, if proceed then k else k - 1);
  }

  // The same in terms of the entries of the table in the order of iteration.

  /** The chain stands at place n of the entries of the table. */
  ghost predicate Within<V>(all: Chain<V>, c: Chain<V>, n: nat) {
    n + |c| <= |all| && forall k :: 0 <= k < |c| ==> all[n + k] == c[k]
  }

  lemma BucketWithin<V>(t: Table<V>, i: nat)
    requires i < |t|
    ensures Within(Flatten(t), t[i], EntriesBefore(t, i))
  {
    FlattenAround(t, i);
    EntriesBeforeIs(t, i);
  }

  lemma BucketRoom<V>(t: Table<V>, i: nat)
    requires i < |t|
    ensures EntriesBefore(t, i) + |t[i]| <= |Flatten(t)|
  {
    BucketWithin(t, i);
  }

  lemma {:induction false} FlattenPrefix<V>(t: Table<V>, b: nat)
    requires b < |t|
    ensures Flatten(t[..b + 1]) == Flatten(t[..b]) + t[b]
  {
    if b > 0 {
      FlattenPrefix(t[1..], b - 1);
      assert t[..b + 1][1..] == t[1..][..b];
      assert t[..b][1..] == t[1..][..b - 1];
    } else {
      assert t[..1] == [t[0]] && t[..1][1..] == [];
    }
  }

  lemma {:induction false} EntriesBeforeIs<V>(t: Table<V>, i: nat)
    requires i <= |t|
    ensures EntriesBefore(t, i) == |Flatten(t[..i])|
  {
    if i == 0 {
    } else {
      EntriesBeforeIs(t, i - 1);
      FlattenPrefix(t, i - 1);
    }
  }

  lemma {:induction false} FreedShift<V>(freed: seq<V>, all: Chain<V>, c: Chain<V>, script: Script, n: nat, j: nat)
    requires Within(all, c, n) && j <= |c|
    ensures FreedBy(FreedBy(freed, all, script, 0, n), c, script, n, j) == FreedBy(freed, all, script, 0, n + j)
  {
    if j == 0 {
    } else {
      FreedShift(freed, all, c, script, n, j - 1);
    }
  }

  lemma {:induction false} ShownShift<V>(shown: Chain<V>, all: Chain<V>, c: Chain<V>, n: nat, j: nat)
    requires Within(all, c, n) && j <= |c|
    ensures ShownBy(ShownBy(shown, all, n), c, j) == ShownBy(shown, all, n + j)
  {
    if j == 0 {
    } else {
      ShownShift(shown, all, c, n, j - 1);
    }
  }

  lemma {:induction false} SieveShift<V>(all: Chain<V>, c: Chain<V>, script: Script, n: nat, j: nat)
    requires Within(all, c, n) && j <= |c|
    ensures Sieve(all, script, 0, n + j) == Sieve(all, script, 0, n) + Sieve(c, script, n, j)
  {
    if j == 0 {
    } else {
      SieveShift(all, c, script, n, j - 1);
    }
  }

  lemma {:induction false} TableFreedIs<V>(freed: seq<V>, t: Table<V>, script: Script, i: nat)
    requires i <= |t|
    ensures EntriesBefore(t, i) <= |Flatten(t)|
    ensures TableFreed(freed, t, script, i) == FreedBy(freed, Flatten(t), script, 0, EntriesBefore(t, i))
  {
    if i == 0 {
    } else {
      TableFreedIs(freed, t, script, i - 1);
      BucketWithin(t, i - 1);
      FreedShift(freed, Flatten(t), t[i - 1], script, EntriesBefore(t, i - 1), |t[i - 1]|);
    }
  }

  lemma {:induction false} TableShownIs<V>(shown: Chain<V>, t: Table<V>, i: nat)
    requires i <= |t|
    ensures EntriesBefore(t, i) <= |Flatten(t)|
    ensures TableShown(shown, t, i) == ShownBy(shown, Flatten(t), EntriesBefore(t, i))
  {
    if i == 0 {
    } else {
      var n := EntriesBefore(t, i - 1);
      TableShownIs(shown, t, i - 1);
      assert Within(Flatten(t), t[i - 1], n) by { BucketWithin(t, i - 1); }
      ShownShift(shown, Flatten(t), t[i - 1], n, |t[i - 1]|);
    }
  }

  lemma KeptPrefix<V>(t: Table<V>, script: Script, i: nat)
    requires i < |t|
    ensures var n, u := EntriesBefore(t, i), TableKept(t, script, i);
      Flatten(TableKept(t, script, i + 1)[..i + 1]) == Flatten(u[..i]) + Sieve(t[i], script, n, |t[i]|)
  {
    var u, u' := TableKept(t, script, i), TableKept(t, script, i + 1);
    FlattenPrefix(u', i);
    assert u'[..i] == u[..i];
    KeptWhole(t[i], script, EntriesBefore(t, i));
  }

  /** What is left of the first i buckets. */
  lemma {:induction false} TableKeptIs<V>(t: Table<V>, script: Script, i: nat)
    requires i <= |t|
    ensures EntriesBefore(t, i) <= |Flatten(t)|
    ensures Flatten(TableKept(t, script, i)[..i]) == Sieve(Flatten(t), script, 0, EntriesBefore(t, i))
  {
    if i == 0 {
    } else {
      var n := EntriesBefore(t, i - 1);
      TableKeptIs(t, script, i - 1);
      KeptPrefix(t, script, i - 1);
      BucketWithin(t, i - 1);
      SieveShift(Flatten(t), t[i - 1], script, n, |t[i - 1]|);
    }
  }

  lemma KeptWhole<V>(c: Chain<V>, script: Script, off: nat)
    ensures Kept(c, script, off, |c|) == Sieve(c, script, off, |c|)
  {
    KeptIs(c, script, off, |c|);
    assert c[|c|..] == [];
  }

  /** Of the entries of a table, those that come after entry j of bucket i. */
  lemma EntriesAfter<V>(t: Table<V>, i: nat, j: nat)
    requires i < |t| && j <= |t[i]|
    ensures var n := EntriesBefore(t, i);
      n + j <= |Flatten(t)| && Flatten(t)[n + j..] == t[i][j..] + Flatten(t[i + 1..])
  {
    FlattenAround(t, i);
    EntriesBeforeIs(t, i);
    SliceJoin(Flatten(t[..i]), t[i], Flatten(t[i + 1..]), j);
  }

  lemma SliceJoin<V>(a: Chain<V>, b: Chain<V>, c: Chain<V>, j: nat)
    requires j <= |b|
    ensures (a + b + c)[|a| + j..] == b[j..] + c
  {}

  lemma Associate<V>(a: seq<V>, b: seq<V>, c: seq<V>)
    ensures a + b + c == a + (b + c)
  {}

  lemma Regroup<V>(a: Chain<V>, b: Chain<V>, c: Chain<V>, d: Chain<V>)
    ensures a + (b + c) + d == (a + b) + (c + d)
  {}

  /** The table when the iteration has shown j entries of bucket i. */
  function TableMidway<V>(t: Table<V>, script: Script, i: nat, j: nat): Table<V>
    requires i < |t| && j <= |t[i]|
  {
    TableKept(t, script, i)[i := Kept(t[i], script, EntriesBefore(t, i), j)]
  }

  lemma MidwayAround<V>(t: Table<V>, script: Script, i: nat, j: nat)
    requires i < |t| && j <= |t[i]|
    ensures Flatten(TableMidway(t, script, i, j))
         == Flatten(TableKept(t, script, i)[..i]) + Kept(t[i], script, EntriesBefore(t, i), j) + Flatten(t[i + 1..])
  {
    var u, v := TableKept(t, script, i), TableMidway(t, script, i, j);
    FlattenAround(v, i);
    assert v[..i] == u[..i];
    forall b | i + 1 <= b < |t| ensures v[b] == t[b] { BucketToCome(t, script, i, b); }
    assert v[i + 1..] == t[i + 1..];
  }

  /** Its entries: of those shown, the ones the callback did not remove, and then those not shown. */
  lemma MidwayIs<V>(t: Table<V>, script: Script, i: nat, j: nat)
    requires i < |t| && j <= |t[i]|
    ensures var n := EntriesBefore(t, i) + j;
      && n <= |Flatten(t)|
      && Flatten(TableMidway(t, script, i, j)) == Sieve(Flatten(t), script, 0, n) + Flatten(t)[n..]
  {
    var all, n := Flatten(t), EntriesBefore(t, i);
    BucketWithin(t, i);
    var a, s, r := Sieve(all, script, 0, n), Sieve(t[i], script, n, j), Flatten(t[i + 1..]);
    calc {
      Flatten(TableMidway(t, script, i, j));
    ==  { MidwayAround(t, script, i, j); TableKeptIs(t, script, i); }
      a + Kept(t[i], script, n, j) + r;
    ==  { KeptIs(t[i], script, n, j); }
      a + (s + t[i][j..]) + r;
    ==  { Regroup(a, s, t[i][j..], r); }
      (a + s) + (t[i][j..] + r);
    ==  { EntriesAfter(t, i, j); }
      (a + s) + all[n + j..];
    ==  { SieveShift(all, t[i], script, n, j); }
      Sieve(all, script, 0, n + j) + all[n + j..];
    }
  }

  /** What an iteration that showed n entries has done. */
  ghost predicate Iterated<V>(t0: Table<V>, script: Script, n: nat, t: Table<V>, freed0: seq<V>, freed: seq<V>,
                              shown0: Chain<V>, shown: Chain<V>)
  {
    var all := Flatten(t0);
    && n <= |all|
    && shown == ShownBy(shown0, all, n)
    && Flatten(t) == Sieve(all, script, 0, n) + all[n..]
    && freed == FreedBy(freed0, all, script, 0, n)
  }

  /** The first i buckets of table t0, with n entries, have been shown. */
  ghost predicate Passed<V>(t0: Table<V>, script: Script, i: nat, n: nat, t: Table<V>, freed0: seq<V>, freed: seq<V>,
                            shown0: Chain<V>, shown: Chain<V>)
  {
    && i <= |t0| && n == EntriesBefore(t0, i) && t == TableKept(t0, script, i)
    && freed == TableFreed(freed0, t0, script, i) && shown == TableShown(shown0, t0, i)
  }

  /** And the first j entries of bucket i. */
  ghost predicate Midway<V>(t0: Table<V>, script: Script, i: nat, j: nat, n: nat, t: Table<V>,
                            freed0: seq<V>, freed: seq<V>, shown0: Chain<V>, shown: Chain<V>)
  {
    && i < |t0| && j <= |t0[i]| && n == EntriesBefore(t0, i) + j && t == TableMidway(t0, script, i, j)
    && freed == FreedBy(TableFreed(freed0, t0, script, i), t0[i], script, EntriesBefore(t0, i), j)
    && shown == ShownBy(TableShown(shown0, t0, i), t0[i], j)
  }

  lemma IteratedPart<V>(t0: Table<V>, script: Script, i: nat, j: nat, n: nat, t: Table<V>,
                        freed0: seq<V>, freed: seq<V>, shown0: Chain<V>, shown: Chain<V>)
    requires Midway(t0, script, i, j, n, t, freed0, freed, shown0, shown)
    ensures Iterated(t0, script, n, t, freed0, freed, shown0, shown)
  {
    var all, m := Flatten(t0), EntriesBefore(t0, i);
    BucketWithin(t0, i);
    TableFreedIs(freed0, t0, script, i);
    FreedShift(freed0, all, t0[i], script, m, j);
    TableShownIs(shown0, t0, i);
    ShownShift(shown0, all, t0[i], m, j);
    MidwayIs(t0, script, i, j);
  }

  lemma IteratedAll<V>(t0: Table<V>, script: Script, n: nat, t: Table<V>, freed0: seq<V>, freed: seq<V>,
                       shown0: Chain<V>, shown: Chain<V>)
    requires Passed(t0, script, |t0|, n, t, freed0, freed, shown0, shown)
    ensures n == |Flatten(t0)| && Iterated(t0, script, n, t, freed0, freed, shown0, shown)
  {
    EntriesBeforeIs(t0, |t0|);
    assert t0[..|t0|] == t0;
    TableFreedIs(freed0, t0, script, |t0|);
    TableShownIs(shown0, t0, |t0|);
    TableKeptIs(t0, script, |t0|);
    assert t[..|t0|] == t;
  }

  /** The entries shown are the first n, in order. */
  lemma {:induction false} ShownByIs<V>(shown: Chain<V>, c: Chain<V>, j: nat)
    requires j <= |c|
    ensures ShownBy(shown, c, j) == shown + c[..j]
  {
    if j == 0 {
    } else {
      ShownByIs(shown, c, j - 1);
      assert c[..j] == c[..j - 1] + [c[j - 1]];
    }
  }

  lemma {:induction false} SievePartition<V>(freed: seq<V>, c: Chain<V>, script: Script, off: nat, j: nat, v: V)
    requires j <= |c|
    ensures Held(Sieve(c, script, off, j), v) + Count(FreedBy(freed, c, script, off, j), v)
         == Held(c[..j], v) + Count(freed, v)
  {
    if j == 0 {
    } else {
      SievePartition(freed, c, script, off, j - 1, v);
      HeldLast(c[..j], v);
      assert c[..j][..j - 1] == c[..j - 1];
      DealOne(Sieve(c, script, off, j - 1), FreedBy(freed, c, script, off, j - 1), c[j - 1], v);
    }
  }

  /** One entry more is kept or freed. */
  lemma DealOne<V>(kept: Chain<V>, out: seq<V>, e: Entry<V>, v: V)
    ensures Count(out + [e.value], v) == Count(out, v) + if e.value == v then 1 else 0
    ensures Held(kept + [e], v) == Held(kept, v) + if e.value == v then 1 else 0
  {
    CountJoin(out, [e.value], v);
    CountOne(e.value, v);
    HeldJoin(kept, [e], v);
    HeldOne(e, v);
  }

  /** What an iteration takes out of the table it frees. */
  lemma IterationConserves<V>(t0: Table<V>, script: Script, n: nat, t: Table<V>, freed0: seq<V>, freed: seq<V>,
                              shown0: Chain<V>, shown: Chain<V>, v: V)
    requires Iterated(t0, script, n, t, freed0, freed, shown0, shown)
    ensures Owned(t, v) + Count(freed, v) == Owned(t0, v) + Count(freed0, v)
  {
    var all := Flatten(t0);
    SievePartition(freed0, all, script, 0, n, v);
    HeldJoin(Sieve(all, script, 0, n), all[n..], v);
    HeldJoin(all[..n], all[n..], v);
    assert all == all[..n] + all[n..];
  }

  /** So an iteration keeps the account. */
  lemma IterationBalances<V>(l: Ledger<V>, script: Script, n: nat, t: Table<V>, freed: seq<V>,
                             shown0: Chain<V>, shown: Chain<V>, v: V)
    requires Balanced(l, v) && Iterated(l.table, script, n, t, l.freed, freed, shown0, shown)
    ensures Balanced(Ledger(t, l.handed, freed), v)
  {
    IterationConserves(l.table, script, n, t, l.freed, freed, shown0, shown, v);
  }
}
