/** The hash map of utils_hash_map.c over its linked nodes: an array of bucket heads, each the start of
    a chain of nodes, changed in place. The ghost fields name the chains and the table they spell. */
module HashMap {
  import opened Common
  import opened HashTable
  import opened HashLedger
  import opened HashIteration
  import opened HashRuns

  class HashNode<V> {
    const key: Key
    var value: V
    var next: HashNode?<V>

    constructor (key: Key, value: V)
      ensures this.key == key && this.value == value && next == null
    {
      this.key, this.value, next := key, value, null;
    }
  }

  function NodeAt<V>(c: seq<HashNode<V>>, j: nat): HashNode?<V> {
    if j < |c| then c[j] else null
  }

  function NodeBefore<V>(c: seq<HashNode<V>>, j: nat): HashNode?<V> {
    if 0 < j <= |c| then c[j - 1] else null
  }

  /** The chains without the node of a key. */
  ghost function Unlinked<V>(chains: seq<seq<HashNode<V>>>, t: Table<V>, key: Key): seq<seq<HashNode<V>>>
    requires |t| == |chains| > 0
  {
    var b := Bucket(key, |t|);
    var c, j := chains[b], Find(t[b], key);
    if j < |c| then chains[b := c[..j] + c[j + 1..]] else chains
  }

  class HashMap<V> {
    var size: nat
    const hashArr: array<HashNode?<V>>
    ghost var nodes: set<HashNode<V>>
    ghost var chains: seq<seq<HashNode<V>>>
    ghost var table: Table<V>
    ghost var handed: seq<V>  // values ever handed in
    ghost var shown: Chain<V>  // entries shown to an iteration callback, in order
    ghost var freed: seq<V>   // values passed to the free callback, in order

    /** The chain of bucket b is linked up and spells its part of the table. */
    ghost predicate Linked(b: nat)
      reads this`chains, this`table, this`nodes, hashArr, nodes
    {
      && b < hashArr.Length && b < |chains| && b < |table|
      && |chains[b]| == |table[b]|
      && hashArr[b] == NodeAt(chains[b], 0)
      && (forall j :: 0 <= j < |chains[b]| ==>
            chains[b][j] in nodes && Entry(chains[b][j].key, chains[b][j].value) == table[b][j])
      && (forall j {:trigger chains[b][j].next} :: 0 <= j < |chains[b]| ==>
            chains[b][j].next == NodeAt(chains[b], j + 1))
    }

    ghost predicate Shape()
      reads this`chains, this`table, this`nodes, hashArr, nodes
    {
      && hashArr.Length == |chains| == |table|
      && forall b :: 0 <= b < |chains| ==> Linked(b)
    }

    ghost predicate Valid()
      reads this, hashArr, nodes
    {
      Shape() && TableOk(table) && size == |Flatten(table)|
    }

    ghost function Account(): Ledger<V>
      reads this
    {
      Ledger(table, handed, freed)
    }

    /** The node at a place is at no other place. */
    ghost predicate OnlyAt(b: nat, j: nat)
      reads this`chains
    {
      && b < |chains| && j < |chains[b]|
      && forall c, k :: 0 <= c < |chains| && 0 <= k < |chains[c]| && chains[c][k] == chains[b][j] ==> c == b && k == j
    }

    /** No node is in two places: its key would be. */
    lemma NodeOnlyAt(b: nat, j: nat)
      requires Shape() && TableOk(table) && b < |chains| && j < |chains[b]|
      ensures OnlyAt(b, j)
    {
      forall c, k | 0 <= c < |chains| && 0 <= k < |chains[c]| && chains[c][k] == chains[b][j] ensures c == b && k == j {
        assert Linked(b) && Linked(c);
        BucketAt(table, |table|, b);
        BucketAt(table, |table|, c);
        assert table[b][j].key == table[c][k].key;
        assert Bucket(table[b][j].key, |table|) == b && Bucket(table[c][k].key, |table|) == c;
      }
    }

    constructor (n: nat)
      requires n > 0
      ensures Valid() && fresh(hashArr) && fresh(nodes) && hashArr.Length == n
      ensures Account() == Ledger(EmptyTable(n), [], [])
    {
      size := 0;
      hashArr := new HashNode?<V>[n](_ => null);
      nodes, handed, shown, freed := {}, [], [], [];
      chains, table := seq(n, _ => []), EmptyTable(n);
      new;
      EmptyTableOk<V>(n);
    }

    /** No buckets, no name or no memory: no map. */
    static method Create(n: nat, named: bool, alloc: bool) returns (m: HashMap?<V>)
      ensures m == null <==> n == 0 || !named || !alloc
      ensures m != null ==> fresh(m) && m.Valid() && m.Account() == Ledger(EmptyTable(n), [], [])
    {
      if !named || n == 0 || !alloc {
        return null;
      }
      m := new HashMap(n);
    }

    /** Walks the chain of a bucket to the node with the key, or past its end. */
    method Walk(index: nat, key: Key) returns (prev: HashNode?<V>, temp: HashNode?<V>)
      requires Shape() && index < hashArr.Length
      ensures var j := Find(table[index], key);
        && temp == NodeAt(chains[index], j)
        && prev == NodeBefore(chains[index], j)
    {
      assert Linked(index);
      ghost var j := 0;
      prev, temp := null, hashArr[index];
      while temp != null
        invariant 0 <= j <= |chains[index]| && temp == NodeAt(chains[index], j)
        invariant prev == NodeBefore(chains[index], j)
        invariant forall k :: 0 <= k < j ==> table[index][k].key != key
        decreases |chains[index]| - j
      {
        if temp.key == key {
          FindFirst(table[index], key, j);
          return;
        }
        prev, temp := temp, temp.next;
        j := j + 1;
      }
      FindFirst(table[index], key, j);
    }

    method IndexOf(key: Key) returns (index: nat)
      requires Shape() && hashArr.Length > 0
      ensures index == Bucket(key, |table|) < hashArr.Length
    {
      var h := Hash(key);
      index := h % hashArr.Length;
    }

    method GetValue(key: Key) returns (r: Option<V>)
      requires Valid()
      ensures r == if key == [] then None else MapLookup(Contents(table), key)
    {
      if key == [] {
        return None;
      }
      var index := IndexOf(key);
      var _, temp := Walk(index, key);
      assert Linked(index);
      r := if temp != null then Some(temp.value) else None;
      ContentsLookup(table, key);
    }

    // ----- the three ways a chain changes -----

    /** A chain none of whose nodes changed is still linked up. */
    twostate lemma StillLinked(b: nat)
      requires old(Linked(b)) && b < |chains| && b < |table| && old(nodes) <= nodes
      requires chains[b] == old(chains)[b] && table[b] == old(table)[b] && hashArr[b] == old(hashArr[b])
      requires forall k :: 0 <= k < |chains[b]| ==>
        old(chains[b][k].next) == chains[b][k].next && old(chains[b][k].value) == chains[b][k].value
      ensures Linked(b)
    {}

    /** Gives the node at a place another value. */
    method SetValueAt(index: nat, node: HashNode<V>, value: V, ghost j: nat)
      requires Shape() && OnlyAt(index, j) && j < |table[index]| && node == chains[index][j]
      modifies this`table, nodes
      ensures Shape() && nodes == old(nodes)
      ensures table == old(table)[index := old(table)[index][j := Entry(old(table)[index][j].key, value)]]
    {
      assert Linked(index);
      node.value := value;
      table := table[index := table[index][j := Entry(table[index][j].key, value)]];
      forall b | 0 <= b < |chains| ensures Linked(b) {
        assert old(Linked(b));
      }
    }

    /** Starts the chain of an empty bucket with a new node. */
    method StartChain(index: nat, node: HashNode<V>)
      requires Shape() && index < |chains| && chains[index] == [] && node !in nodes && node.next == null
      modifies this`table, this`chains, this`nodes, hashArr
      ensures Shape() && nodes == old(nodes) + {node}
      ensures table == old(table)[index := [Entry(node.key, node.value)]]
    {
      hashArr[index] := node;
      chains := chains[index := [node]];
      table := table[index := [Entry(node.key, node.value)]];
      nodes := nodes + {node};
      forall b | 0 <= b < |chains| ensures Linked(b) {
        assert old(Linked(b));
      }
    }

    /** Links a new node to the last one of a chain. */
    method ExtendChain(index: nat, last: HashNode<V>, node: HashNode<V>)
      requires Shape() && index < |chains| && chains[index] != [] && OnlyAt(index, |chains[index]| - 1)
      requires last == chains[index][|chains[index]| - 1] && node !in nodes && node.next == null
      modifies this`table, this`chains, this`nodes, nodes
      ensures Shape() && nodes == old(nodes) + {node}
      ensures table == old(table)[index := old(table)[index] + [Entry(node.key, old(node.value))]]
    {
      assert Linked(index);
      last.next := node;
      chains := chains[index := chains[index] + [node]];
      table := table[index := table[index] + [Entry(node.key, node.value)]];
      nodes := nodes + {node};
      forall b | 0 <= b < |chains| ensures Linked(b) {
        assert old(Linked(b));
        if b != index { StillLinked(b); }
      }
    }

    /** Takes the first node out of a chain. */
    method UnlinkHead(index: nat)
      requires Shape() && index < |chains| && chains[index] != [] && table[index] != []
      modifies this`table, this`chains, hashArr
      ensures Shape()
      ensures table == old(table)[index := old(table)[index][1..]]
      ensures chains == old(chains)[index := old(chains)[index][1..]]
    {
      assert Linked(index);
      hashArr[index] := hashArr[index].next;
      chains := chains[index := chains[index][1..]];
      table := table[index := table[index][1..]];
      forall b | 0 <= b < |chains| ensures Linked(b) {
        assert old(Linked(b));
        if b == index {
          ghost var c, d := old(chains)[b], chains[b];
          forall i | 0 <= i < |d| ensures d[i].next == NodeAt(d, i + 1) && d[i] == c[i + 1] {
            assert c[i + 1].next == NodeAt(c, i + 2);
          }
        }
      }
    }

    /** Takes the node after prev out of its chain. */
    method UnlinkNext(index: nat, prev: HashNode<V>, node: HashNode<V>, ghost j: nat)
      requires Shape() && index < |chains| && 0 < j < |table[index]| && OnlyAt(index, j - 1)
      requires j < |chains[index]| && prev == chains[index][j - 1] && node == chains[index][j]
      modifies this`table, this`chains, nodes
      ensures Shape()
      ensures table == old(table)[index := old(table)[index][..j] + old(table)[index][j + 1..]]
      ensures chains == old(chains)[index := old(chains)[index][..j] + old(chains)[index][j + 1..]]
    {
      assert Linked(index);
      prev.next := node.next;
      chains := chains[index := chains[index][..j] + chains[index][j + 1..]];
      table := table[index := table[index][..j] + table[index][j + 1..]];
      forall b | 0 <= b < |chains| ensures Linked(b) {
        assert old(Linked(b));
        if b != index { StillLinked(b); }
      }
    }

    // ----- the operations -----

    /** Overwrites the value of the key's node, or links up a new node; gives the value replaced. */
    method PutNode(key: Key, value: V) returns (lapsed: Option<V>)
      requires Shape() && TableOk(table)
      modifies this`table, this`chains, this`nodes, hashArr, nodes
      ensures Shape() && fresh(nodes - old(nodes))
      ensures table == Put(old(table), key, value) && lapsed == Lookup(old(table), key)
    {
      var index := IndexOf(key);
      var prev, temp := Walk(index, key);
      ghost var j := Find(table[index], key);
      assert Linked(index);
      if temp != null {
        lapsed := Some(temp.value);
        NodeOnlyAt(index, j);
        SetValueAt(index, temp, value, j);
      } else {
        lapsed := None;
        var node := new HashNode(key, value);
        if hashArr[index] == null {
          assert table[index] + [Entry(key, value)] == [Entry(key, value)];
          StartChain(index, node);
        } else {
          NodeOnlyAt(index, j - 1);
          ExtendChain(index, prev, node);
        }
      }
    }

    method Insert(key: Key, value: Option<V>, alloc: bool) returns (ok: bool)
      requires Valid()
      modifies this, hashArr, nodes
      ensures Valid() && fresh(nodes - old(nodes))
      ensures ok <==> key != [] && value.Some? && alloc
      ensures Account() == Apply(old(Account()), Op.Insert(key, value, alloc))
    {
      if key == [] || value.None? || !alloc {
        return false;
      }
      var v := value.value;
      var lapsed := PutNode(key, v);
      PutOk(old(table), key, v);
      PutCount(old(table), key, v);
      if lapsed.None? {
        size := size + 1;
      }
      handed := handed + [v];
      freed := freed + Lapsed(lapsed);
      ok := true;
    }

    /** Unlinks the node of the key, if there is one; gives its value. */
    method DropNode(key: Key) returns (lapsed: Option<V>)
      requires Shape() && TableOk(table)
      modifies this`table, this`chains, hashArr, nodes
      ensures Shape() && table == Drop(old(table), key) && lapsed == Lookup(old(table), key)
      ensures chains == Unlinked(old(chains), old(table), key)
    {
      var index := IndexOf(key);
      var prev, temp := Walk(index, key);
      ghost var j := Find(table[index], key);
      assert Linked(index);
      if temp == null {
        DropAbsent(table, chains, key);
        return None;
      }
      lapsed := Some(temp.value);
      if prev == null {
        DropHead(table, chains, key);
        UnlinkHead(index);
      } else {
        NodeOnlyAt(index, j - 1);
        UnlinkNext(index, prev, temp, j);
      }
    }

    method Remove(key: Key) returns (ok: bool)
      requires Valid()
      modifies this`size, this`table, this`chains, this`freed, hashArr, nodes
      ensures Valid() && nodes == old(nodes)
      ensures ok <==> key != [] && Lookup(old(table), key).Some?
      ensures Account() == Apply(old(Account()), Op.Remove(key))
      ensures key != [] ==> chains == Unlinked(old(chains), old(table), key)
    {
      if key == [] {
        return false;
      }
      var lapsed := DropNode(key);
      DropOk(old(table), key);
      DropCount(old(table), key);
      if lapsed.None? {
        return false;
      }
      freed := freed + [lapsed.value];
      size := size - 1;
      ok := true;
    }
  
    /** Frees the values of one chain in order. */
    method FreeChain(i: nat)
      requires Shape() && i < hashArr.Length
      modifies this`freed
      ensures freed == old(freed) + ValuesOf(table[i])
    {
      assert Linked(i);
      ghost var j := 0;
      var temp := hashArr[i];
      while temp != null
        invariant 0 <= j <= |chains[i]| && temp == NodeAt(chains[i], j)
        invariant freed == old(freed) + ValuesOf(table[i][..j])
        decreases |chains[i]| - j
      {
        freed := freed + [temp.value];
        assert table[i][..j + 1][..j] == table[i][..j];
        temp := temp.next;
        j := j + 1;
      }
      assert table[i][..j] == table[i];
    }

    method Delete()
      requires Valid()
      modifies this, hashArr
      ensures Valid() && nodes == old(nodes)
      ensures Account() == Apply(old(Account()), Op.Delete)
    {
      var i := 0;
      assert table[..0] == [];
      while i < hashArr.Length
        invariant 0 <= i <= hashArr.Length && Valid()
        invariant table == old(table) && nodes == old(nodes) && handed == old(handed)
        invariant freed == old(freed) + ValuesOf(Flatten(table[..i]))
      {
        FreeChain(i);
        FlattenPrefix(table, i);
        ValuesJoin(Flatten(table[..i]), table[i]);
        Associate(old(freed), ValuesOf(Flatten(table[..i])), ValuesOf(table[i]));
        i := i + 1;
      }
      assert table[..i] == table;
      ClearBuckets();
    }

    /** Empties all buckets. */
    method ClearBuckets()
      requires hashArr.Length == |table| > 0
      modifies this`chains, this`table, this`size, hashArr
      ensures Valid() && table == EmptyTable(old(|table|))
    {
      forall b | 0 <= b < hashArr.Length {
        hashArr[b] := null;
      }
      size := 0;
      chains, table := seq(hashArr.Length, _ => []), EmptyTable(hashArr.Length);
      EmptyTableOk<V>(hashArr.Length);
    }

    method Length() returns (n: nat)
      requires Valid()
      ensures n == |Contents(table)|
    {
      n := size;
      EntryCount(table);
    }

    /** The callback removes the entry it is shown, by its key. */
    method RemoveShown(i: nat, node: HashNode<V>, ghost m: nat)
      requires Valid() && i < |chains| && m < |chains[i]| && m < |table[i]| && node == chains[i][m]
      modifies this`table, this`chains, this`size, this`freed, hashArr, nodes
      ensures Valid()
      ensures table == old(table)[i := old(table)[i][..m] + old(table)[i][m + 1..]]
      ensures chains == old(chains)[i := old(chains)[i][..m] + old(chains)[i][m + 1..]]
      ensures freed == old(freed) + [old(table)[i][m].value] 
    {
      assert Linked(i);
      BucketAt(table, |table|, i);
      FindAt(table[i], node.key, m);
      var ok := Remove(node.key);
    }

    /** Bucket i of table t began as nodes c0, and the first j of them have been shown. */
    ghost predicate Shown(i: nat, c0: seq<HashNode<V>>, t: Table<V>, script: Script, off: nat, j: nat,
                          freed0: seq<V>, shown0: Chain<V>)
      reads this`chains, this`table, this`freed, this`shown
    {
      && i < |t| == |chains| && j <= |t[i]| == |c0|
      && table == t[i := Kept(t[i], script, off, j)]
      && SameFrom(chains[i], |Sieve(t[i], script, off, j)|, c0, j)
      && freed == FreedBy(freed0, t[i], script, off, j)
      && shown == ShownBy(shown0, t[i], j)
    }

    /** Shows one node to the callback. The next node is remembered before the callback may remove it. */
    method ShowNode(i: nat, temp: HashNode<V>, script: Script, off: nat, j: nat, ghost c0: seq<HashNode<V>>,
                    ghost t: Table<V>, ghost freed0: seq<V>, ghost shown0: Chain<V>)
      returns (next: HashNode?<V>)
      requires Valid() && Shown(i, c0, t, script, off, j, freed0, shown0) && j < |c0| && temp == c0[j]
      modifies this`table, this`chains, this`size, this`freed, this`shown, hashArr, nodes
      ensures Valid()
      ensures Shown(i, c0, t, script, off, j + 1, freed0, shown0) && next == NodeAt(c0, j + 1)
    {
      ghost var m := ShowStep(chains[i], c0, t, i, script, off, j);
      assert Linked(i);
      next := temp.next;
      shown := shown + [Entry(temp.key, temp.value)];
      if Removes(script, off + j) {
        RemoveShown(i, temp, m);
      }
    }

    /** Shows the entries of one bucket to the callback, the first as number off. */
    method VisitBucket(i: nat, script: Script, off: nat) returns (n: nat, proceed: bool)
      requires Valid() && i < hashArr.Length && i < |table| && off + |table[i]| <= |script|
      modifies this`table, this`chains, this`size, this`freed, this`shown, hashArr, nodes
      ensures Valid()
      ensures i < |old(table)| && n <= |old(table)[i]|
      ensures table == old(table)[i := Kept(old(table)[i], script, off, n)]
      ensures freed == FreedBy(old(freed), old(table)[i], script, off, n)
      ensures shown == ShownBy(old(shown), old(table)[i], n)
      ensures Halts(script, off, n, proceed) && (proceed ==> n == |old(table)[i]|)
    {
      ghost var c0, t := chains[i], table;
      assert Linked(i);
      SameAsSelf(c0, 0);
      SetSame(t, i);
      n, proceed := 0, true;
      var temp := hashArr[i];
      while temp != null && proceed
        invariant Valid()
        invariant Shown(i, c0, t, script, off, n, old(freed), old(shown)) && temp == NodeAt(c0, n)
        invariant Halts(script, off, n, proceed)
        decreases |c0| - n
      {
        temp := ShowNode(i, temp, script, off, n, c0, t, old(freed), old(shown));
        proceed := script[off + n].proceed;
        n := n + 1;
      }
    }

    /** Shows the entries of the buckets in turn: all of them, or up to entry j of bucket i. */
    method VisitBuckets(script: Script) returns (i: nat, j: nat, n: nat, finished: bool)
      requires Valid() && |script| == |Flatten(table)|
      modifies this`table, this`chains, this`size, this`freed, this`shown, hashArr, nodes
      ensures Valid()
      ensures if finished
              then i == |old(table)| && Passed(old(table), script, i, n, table, old(freed), freed, old(shown), shown)
              else Midway(old(table), script, i, j, n, table, old(freed), freed, old(shown), shown)
      ensures Halts(script, 0, n, finished)
    {
      ghost var t := table;
      i, j, n := 0, 0, 0;
      while i < hashArr.Length
        invariant Valid()
        invariant i <= hashArr.Length == |t| && Passed(t, script, i, n, table, old(freed), freed, old(shown), shown)
        invariant Halts(script, 0, n, true)
      {
        BucketToCome(t, script, i, i);
        BucketRoom(t, i);
        j, finished := VisitBucket(i, script, n);
        if !finished {
          HaltsJoin(script, n, j, false);
          n := n + j;
          return;
        }
        HaltsJoin(script, n, j, true);
        n, i := n + j, i + 1;
      }
      finished := true;
    }

    /** Shows entries to the callback until it stops the iteration or all have been shown. The entries
        shown are those present at the start, each once and in order; exactly the shown entries the
        callback removed are gone, from the finite map as well, and exactly their values have been freed.
        The end names the point where it stopped. */
    method Iterate(script: Script) returns (n: nat, finished: bool, ghost end: End)
      requires Valid() && |script| == |Flatten(table)|
      modifies this`table, this`chains, this`size, this`freed, this`shown, hashArr, nodes
      ensures Valid()
      ensures Iterated(old(table), script, n, table, old(freed), freed, old(shown), shown)
      ensures Contents(table) == Contents(old(table)) - RemovedKeys(Flatten(old(table)), script, n)
      ensures Halts(script, 0, n, finished) && (finished ==> n == |script|)
      ensures Ends(old(table), end) && Account() == Perform(old(Account()), Act.Iterate(script, end))
    {
      var i, j;
      i, j, n, finished := VisitBuckets(script);
      end := if finished then Finished else StoppedIn(i, j);
      if finished {
        IteratedAll(old(table), script, n, table, old(freed), freed, old(shown), shown);
      } else {
        IteratedPart(old(table), script, i, j, n, table, old(freed), freed, old(shown), shown);
      }
      IterationRefines(old(table), script, n, table, old(freed), freed, old(shown), shown);
    }
  }

  /** From places m and j on, the two chains are the same. */
  ghost predicate SameFrom<V>(c: seq<HashNode<V>>, m: nat, c0: seq<HashNode<V>>, j: nat)
    decreases |c0| - j
  {
    if j < |c0| then m < |c| && c[m] == c0[j] && SameFrom(c, m + 1, c0, j + 1) else m == |c| && j == |c0|
  }

  lemma {:induction false} SameAsSelf<V>(c: seq<HashNode<V>>, j: nat)
    requires j <= |c|
    ensures SameFrom(c, j, c, j)
    decreases |c| - j
  {
    if j == |c| {
    } else {
      SameAsSelf(c, j + 1);
    }
  }

  /** Taking out the node before leaves the rest of the chain the same. */
  lemma {:induction false} SameAfter<V>(c: seq<HashNode<V>>, m: nat, d: nat, c0: seq<HashNode<V>>, j: nat)
    requires d < m <= |c| && j <= |c0| && SameFrom(c, m, c0, j)
    ensures SameFrom(c[..d] + c[d + 1..], m - 1, c0, j)
    decreases |c0| - j
  {
    if j == |c0| {
    } else {
      SameAfter(c, m + 1, d, c0, j + 1);
    }
  }

  /** Where the next node to be shown is, and what becomes of the bucket when it is shown. */
  lemma ShowStep<V>(c: seq<HashNode<V>>, c0: seq<HashNode<V>>, t: Table<V>, i: nat, script: Script, off: nat, j: nat)
    returns (m: nat)
    requires i < |t| && j < |t[i]| == |c0| && SameFrom(c, |Sieve(t[i], script, off, j)|, c0, j)
    ensures var k := Kept(t[i], script, off, j);
      && m < |c| && m < |k| && c[m] == c0[j] && k[m] == t[i][j] && NodeAt(c, m + 1) == NodeAt(c0, j + 1)
      && m == |Sieve(t[i], script, off, j)|
      && SameFrom(c[..m] + c[m + 1..], m, c0, j + 1)
      && t[i := k][i := k[..m] + k[m + 1..]] == t[i := k[..m] + k[m + 1..]]
  {
    m := |Sieve(t[i], script, off, j)|;
    KeptIs(t[i], script, off, j);
    SameAfter(c, m + 1, m, c0, j + 1);
  }

  lemma DropAbsent<V>(t: Table<V>, chains: seq<seq<HashNode<V>>>, key: Key)
    requires |t| == |chains| > 0 && |t[Bucket(key, |t|)]| == |chains[Bucket(key, |t|)]|
    requires var c := t[Bucket(key, |t|)]; Find(c, key) == |c|
    ensures Drop(t, key) == t && Unlinked(chains, t, key) == chains
  {
    SetSame(t, Bucket(key, |t|));
  }

  lemma DropHead<V>(t: Table<V>, chains: seq<seq<HashNode<V>>>, key: Key)
    requires |t| == |chains| > 0 && |t[Bucket(key, |t|)]| == |chains[Bucket(key, |t|)]|
    requires var c := t[Bucket(key, |t|)]; Find(c, key) == 0 < |c|
    ensures var b := Bucket(key, |t|);
      Drop(t, key) == t[b := t[b][1..]] && Unlinked(chains, t, key) == chains[b := chains[b][1..]]
  {
    var b := Bucket(key, |t|);
    CutFirst(t[b]);
    CutFirst(chains[b]);
  }

  lemma SetSame<T>(s: seq<T>, i: nat)
    requires i < |s|
    ensures s[i := s[i]] == s
  {}

  lemma CutFirst<T>(s: seq<T>)
    ensures |s| > 0 ==> s[..0] + s[1..] == s[1..]
  {}

  lemma FindFirst<V>(c: Chain<V>, key: Key, j: nat)
    requires j <= |c| && (j < |c| ==> c[j].key == key)
    requires forall k :: 0 <= k < j ==> c[k].key != key
    ensures Find(c, key) == j
  {}
}
