/** The linear-hashing table of src/opbox/hash.c.

    One bucket is split when an insert finds the table at its upper load, and one
    bucket pair is merged when a delete leaves it at its lower load.  Chains of nodes
    are sequences.  `comp` is any equivalence, given by the key it compares:
    `comp(a, b) == 0` is `key(a) == key(b)`; equivalent items hash alike because the
    hash is a function of the key. */
module LinearHash {
  import opened Options
  import opened Modular

  const MIN_NODES: nat := 2048
  const LOAD_MULT: nat := 256
  const UP_LOAD: nat := 2 * LOAD_MULT
  const DOWN_LOAD: nat := LOAD_MULT

  // ---------- load ----------

  predicate AtUpLoad(items: nat, nodes: nat)
    requires 0 < nodes
  {
    UP_LOAD <= items * LOAD_MULT / nodes
  }

  predicate AtDownLoad(items: nat, nodes: nat)
    requires 0 < nodes
  {
    DOWN_LOAD >= items * LOAD_MULT / nodes
  }

  /** What the truncating load division decides. */
  lemma LoadTests(items: nat, nodes: nat)
    requires 0 < nodes
    ensures AtUpLoad(items, nodes) <==> items >= 2 * nodes
    ensures AtDownLoad(items, nodes) <==> items * LOAD_MULT < (DOWN_LOAD + 1) * nodes
  {
    QuotientAtLeast(items * LOAD_MULT, nodes, UP_LOAD);
    QuotientAtLeast(items * LOAD_MULT, nodes, DOWN_LOAD + 1);
  }

  /** The load window every reachable table stays in. */
  predicate LoadBounds(items: nat, nodes: nat)
  {
    && items <= 2 * nodes
    && (nodes > MIN_NODES ==> items >= nodes)
  }

  // ---------- addressing ----------

  /** The slot `getrn` looks in. */
  function Bucket(h: nat, p: nat, pmax: nat): (slot: nat)
    requires p < pmax
    ensures slot < 2 * pmax
  {
    if Rem(h, pmax) < p then Rem(h, 2 * pmax) else Rem(h, pmax)
  }

  /** The addressing parameters after one split. */
  function Next(p: nat, pmax: nat): (nat, nat)
  {
    if p + 1 >= pmax then (0, 2 * pmax) else (p + 1, pmax)
  }

  /** A split at `p` only readdresses items of bucket `p`: to `p` itself or to `p + pmax`,
      and the test `hash % nni != p` of the source tells which. */
  lemma BucketAfterSplit(h: nat, p: nat, pmax: nat)
    requires p < pmax
    ensures var (p', pmax') := Next(p, pmax);
            var before := Bucket(h, p, pmax);
            Bucket(h, p', pmax') ==
            (if before != p then before else if Rem(h, 2 * pmax) != p then p + pmax else p)
    ensures Bucket(h, p, pmax) < pmax + p
  {
    RemDouble(h, pmax, 2 * pmax);
  }

  /** pmax is MIN_NODES / 2 doubled some number of times. */
  predicate Doubled(pmax: nat)
  {
    pmax == MIN_NODES / 2 || (pmax > MIN_NODES / 2 && pmax % 2 == 0 && Doubled(pmax / 2))
  }

  lemma {:induction false} DoubledAtLeast(pmax: nat)
    requires Doubled(pmax)
    ensures pmax >= MIN_NODES / 2
    ensures Doubled(2 * pmax)
    ensures pmax > MIN_NODES / 2 ==> pmax == 2 * (pmax / 2) && Doubled(pmax / 2) && pmax >= MIN_NODES
  {
    assert (2 * pmax) % 2 == 0 && (2 * pmax) / 2 == pmax;
    if pmax > MIN_NODES / 2 {
      var half := pmax / 2;
      assert pmax == 2 * half;
      DoubledAtLeast(half);
    }
  }

  // ---------- the shape of every reachable table ----------

  /** Every node lies in the bucket computed for it and is the map's entry for its key. */
  ghost predicate Placed<K, T>(key: T -> K, hash: K -> nat, chains: seq<seq<T>>,
                               p: nat, pmax: nat, m: map<K, T>)
    requires p < pmax
  {
    forall i, x :: 0 <= i < |chains| && x in chains[i] ==>
      Bucket(hash(key(x)), p, pmax) == i && key(x) in m && m[key(x)] == x
  }

  /** Every entry of the map is a node of its bucket. */
  ghost predicate Stored<K, T>(key: T -> K, hash: K -> nat, chains: seq<seq<T>>,
                               p: nat, pmax: nat, m: map<K, T>)
    requires p < pmax && |chains| == 2 * pmax
  {
    forall k :: k in m ==> key(m[k]) == k && m[k] in chains[Bucket(hash(k), p, pmax)]
  }

  /** No chain holds a key twice. */
  ghost predicate NoDup<K, T>(key: T -> K, chain: seq<T>)
  {
    forall j, k :: 0 <= j < k < |chain| ==> key(chain[j]) != key(chain[k])
  }

  ghost predicate AllNoDup<K, T>(key: T -> K, chains: seq<seq<T>>)
  {
    forall i :: 0 <= i < |chains| ==> NoDup(key, chains[i])
  }

  ghost predicate EmptyFrom<T>(chains: seq<seq<T>>, n: nat)
  {
    forall i :: n <= i < |chains| ==> chains[i] == []
  }

  ghost predicate Shape<K, T>(key: T -> K, hash: K -> nat, chains: seq<seq<T>>,
                              p: nat, pmax: nat, m: map<K, T>)
  {
    && p < pmax && |chains| == 2 * pmax
    && EmptyFrom(chains, pmax + p)
    && Placed(key, hash, chains, p, pmax, m)
    && Stored(key, hash, chains, p, pmax, m)
    && AllNoDup(key, chains)
  }

  // ---------- one split, one merge ----------

  /** keep and moved share out bucket p by the source's test. */
  ghost predicate SharesOut<K, T>(key: T -> K, hash: K -> nat, chain: seq<T>, nni: nat, p: nat,
                                  keep: seq<T>, moved: seq<T>)
    requires 0 < nni
  {
    && (forall x :: x in keep ==> x in chain && Rem(hash(key(x)), nni) == p)
    && (forall x :: x in moved ==> x in chain && Rem(hash(key(x)), nni) != p)
    && (forall x :: x in chain ==> x in keep || x in moved)
    && NoDup(key, keep) && NoDup(key, moved)
  }

  /** The bucket array after the realloc of a split and after that of a merge. */
  function Grown<T>(chains: seq<seq<T>>, p: nat, pmax: nat): seq<seq<T>>
  {
    if p + 1 >= pmax then chains + seq(|chains|, _ => []) else chains
  }

  function Shrunk<T>(chains: seq<seq<T>>, p: nat, pmax: nat): seq<seq<T>>
    requires pmax <= |chains|
  {
    if p == 0 then chains[..pmax] else chains
  }

  /** Splitting bucket `p` keeps the shape of the table and the map it represents. */
  lemma SplitKeeps<K, T>(key: T -> K, hash: K -> nat, chains: seq<seq<T>>, p: nat, pmax: nat, m: map<K, T>,
                         keep: seq<T>, moved: seq<T>)
    requires Shape(key, hash, chains, p, pmax, m)
    requires SharesOut(key, hash, chains[p], 2 * pmax, p, keep, moved)
    ensures Shape(key, hash, Grown(chains, p, pmax)[p := keep][p + pmax := moved],
                  Next(p, pmax).0, Next(p, pmax).1, m)
  {
    var chains' := Grown(chains, p, pmax)[p := keep][p + pmax := moved];
    var (p', pmax') := Next(p, pmax);
    forall i, x | 0 <= i < |chains'| && x in chains'[i]
      ensures Bucket(hash(key(x)), p', pmax') == i && key(x) in m && m[key(x)] == x
    {
      BucketAfterSplit(hash(key(x)), p, pmax);
      assert x in chains[if i == p + pmax then p else i];
    }
    forall k | k in m
      ensures m[k] in chains'[Bucket(hash(k), p', pmax')]
    {
      BucketAfterSplit(hash(k), p, pmax);
      assert m[k] in chains[Bucket(hash(k), p, pmax)];
    }
    forall i | 0 <= i < |chains'|
      ensures NoDup(key, chains'[i])
    {
      if i != p && i != p + pmax && i < |chains| {
        assert NoDup(key, chains[i]);
      }
    }
  }

  lemma JoinNoDup<K, T>(key: T -> K, c: seq<T>, d: seq<T>)
    requires NoDup(key, c) && NoDup(key, d)
    requires forall x, y :: x in c && y in d ==> key(x) != key(y)
    ensures NoDup(key, c + d)
  {
  }

  /** The bucket array with bucket `p + pmax` appended to bucket `p`. */
  function Merged<T>(chains: seq<seq<T>>, p: nat, pmax: nat): seq<seq<T>>
    requires p < pmax && |chains| == 2 * Next(p, pmax).1
  {
    var rest := Shrunk(chains[p + pmax := []], Next(p, pmax).0, Next(p, pmax).1);
    rest[p := rest[p] + chains[p + pmax]]
  }

  lemma MergedAt<T>(chains: seq<seq<T>>, p: nat, pmax: nat, i: nat)
    requires p < pmax && |chains| == 2 * Next(p, pmax).1 && i < 2 * pmax
    ensures |Merged(chains, p, pmax)| == 2 * pmax
    ensures Merged(chains, p, pmax)[i] == if i == p then chains[p] + chains[p + pmax]
                                          else if i == p + pmax then [] else chains[i]
  {
  }

  lemma MergePlaced<K, T>(key: T -> K, hash: K -> nat, chains: seq<seq<T>>, p: nat, pmax: nat, m: map<K, T>)
    requires p < pmax && |chains| == 2 * Next(p, pmax).1
    requires Placed(key, hash, chains, Next(p, pmax).0, Next(p, pmax).1, m)
    ensures Placed(key, hash, Merged(chains, p, pmax), p, pmax, m)
  {
    MergedAt(chains, p, pmax, p);
    hide Rem, Merged;
    var chains' := Merged(chains, p, pmax);
    forall i, x | 0 <= i < |chains'| && x in chains'[i]
      ensures Bucket(hash(key(x)), p, pmax) == i && key(x) in m && m[key(x)] == x
    {
      MergedAt(chains, p, pmax, i);
      BucketAfterSplit(hash(key(x)), p, pmax);
      assert x in chains[i] || (i == p && x in chains[p + pmax]);
    }
  }

  lemma MergeStored<K, T>(key: T -> K, hash: K -> nat, chains: seq<seq<T>>, p: nat, pmax: nat, m: map<K, T>)
    requires p < pmax && |chains| == 2 * Next(p, pmax).1
    requires Stored(key, hash, chains, Next(p, pmax).0, Next(p, pmax).1, m)
    ensures |Merged(chains, p, pmax)| == 2 * pmax
    ensures Stored(key, hash, Merged(chains, p, pmax), p, pmax, m)
  {
    MergedAt(chains, p, pmax, p);
    hide Rem, Merged;
    forall k | k in m
      ensures m[k] in Merged(chains, p, pmax)[Bucket(hash(k), p, pmax)]
    {
      BucketAfterSplit(hash(k), p, pmax);
      MergedAt(chains, p, pmax, Bucket(hash(k), p, pmax));
    }
  }

  lemma MergeNoDup<K, T>(key: T -> K, hash: K -> nat, chains: seq<seq<T>>, p: nat, pmax: nat, m: map<K, T>)
    requires p < pmax && |chains| == 2 * Next(p, pmax).1
    requires Placed(key, hash, chains, Next(p, pmax).0, Next(p, pmax).1, m) && AllNoDup(key, chains)
    ensures AllNoDup(key, Merged(chains, p, pmax))
  {
    MergedAt(chains, p, pmax, p);
    hide Rem, Merged, Bucket;
    forall i | 0 <= i < |Merged(chains, p, pmax)|
      ensures NoDup(key, Merged(chains, p, pmax)[i])
    {
      MergedAt(chains, p, pmax, i);
      assert NoDup(key, chains[i]) && NoDup(key, chains[p + pmax]);
      if i == p {
        JoinNoDup(key, chains[p], chains[p + pmax]);
      }
    }
  }

  /** Appending bucket `p + pmax` to bucket `p` undoes a split. */
  lemma MergeKeeps<K, T>(key: T -> K, hash: K -> nat, chains: seq<seq<T>>, p: nat, pmax: nat, m: map<K, T>)
    requires p < pmax
    requires Shape(key, hash, chains, Next(p, pmax).0, Next(p, pmax).1, m)
    ensures Shape(key, hash, Merged(chains, p, pmax), p, pmax, m)
  {
    MergePlaced(key, hash, chains, p, pmax, m);
    MergeStored(key, hash, chains, p, pmax, m);
    MergeNoDup(key, hash, chains, p, pmax, m);
    hide Placed, Stored, NoDup, AllNoDup, Merged;
    forall i | pmax + p <= i < 2 * pmax
      ensures Merged(chains, p, pmax)[i] == []
    {
      MergedAt(chains, p, pmax, i);
    }
  }

  // ---------- one chain ----------

  /** An absent key is absent from its chain, and a node of the chain with the key is its entry. */
  lemma LookupInChain<K, T>(key: T -> K, hash: K -> nat, chains: seq<seq<T>>, p: nat, pmax: nat, m: map<K, T>,
                            k: K, j: nat)
    requires Shape(key, hash, chains, p, pmax, m)
    requires j <= |chains[Bucket(hash(k), p, pmax)]|
    requires forall i :: 0 <= i < j ==> key(chains[Bucket(hash(k), p, pmax)][i]) != k
    requires j < |chains[Bucket(hash(k), p, pmax)]| ==> key(chains[Bucket(hash(k), p, pmax)][j]) == k
    ensures var chain := chains[Bucket(hash(k), p, pmax)];
            if j < |chain| then k in m && m[k] == chain[j] else k !in m
  {
    var chain := chains[Bucket(hash(k), p, pmax)];
    if j < |chain| {
      assert chain[j] in chain;
    }
  }

  /** A chain rewritten for one key represents the map rewritten at that key. */
  lemma ChainUpdate<K, T>(key: T -> K, hash: K -> nat, chains: seq<seq<T>>, p: nat, pmax: nat, m: map<K, T>,
                          k: K, chain: seq<T>, m': map<K, T>)
    requires Shape(key, hash, chains, p, pmax, m)
    requires NoDup(key, chain)
    requires forall x :: x in chain && key(x) != k ==> x in chains[Bucket(hash(k), p, pmax)]
    requires forall x :: x in chains[Bucket(hash(k), p, pmax)] && key(x) != k ==> x in chain
    requires forall x :: x in chain && key(x) == k ==> k in m' && m'[k] == x
    requires k in m' ==> key(m'[k]) == k && m'[k] in chain
    requires forall j :: j != k ==> (j in m' <==> j in m)
    requires forall j :: j != k && j in m ==> m'[j] == m[j]
    ensures Shape(key, hash, chains[Bucket(hash(k), p, pmax) := chain], p, pmax, m')
  {
    var nn := Bucket(hash(k), p, pmax);
    BucketAfterSplit(hash(k), p, pmax);
    var chains' := chains[nn := chain];
    forall i, x | 0 <= i < |chains'| && x in chains'[i]
      ensures Bucket(hash(key(x)), p, pmax) == i && key(x) in m' && m'[key(x)] == x
    {
      if i != nn || key(x) != k {
        assert x in chains[i];
      }
    }
    forall j | j in m'
      ensures key(m'[j]) == j && m'[j] in chains'[Bucket(hash(j), p, pmax)]
    {
    }
    forall i | 0 <= i < |chains'|
      ensures NoDup(key, chains'[i])
    {
      if i != nn {
        assert NoDup(key, chains[i]);
      }
    }
  }

  /** Linking, overwriting and unlinking a node keep the rest of the chain. */
  lemma LinkAtEnd<K, T>(key: T -> K, chain: seq<T>, x: T)
    requires NoDup(key, chain)
    requires forall j :: 0 <= j < |chain| ==> key(chain[j]) != key(x)
    ensures NoDup(key, chain + [x])
    ensures forall y :: y in chain + [x] <==> y in chain || y == x
  {
  }

  lemma Overwrite<K, T>(key: T -> K, chain: seq<T>, j: nat, x: T)
    requires NoDup(key, chain)
    requires j < |chain| && key(chain[j]) == key(x)
    ensures NoDup(key, chain[j := x]) && x in chain[j := x]
    ensures forall y :: key(y) != key(x) ==> (y in chain[j := x] <==> y in chain)
    ensures forall y :: y in chain[j := x] && key(y) == key(x) ==> y == x
  {
    var chain' := chain[j := x];
    assert chain'[j] == x;
    forall y | key(y) != key(x)
      ensures y in chain' <==> y in chain
    {
      if y in chain {
        var k :| 0 <= k < |chain| && chain[k] == y;
        assert chain'[k] == y;
      }
    }
    forall y | y in chain' && key(y) == key(x)
      ensures y == x
    {
      var k :| 0 <= k < |chain'| && chain'[k] == y;
      assert k == j;
    }
  }

  lemma Unlink<K, T>(key: T -> K, chain: seq<T>, j: nat)
    requires NoDup(key, chain)
    requires j < |chain|
    ensures NoDup(key, chain[..j] + chain[j + 1..])
    ensures forall y :: y in chain[..j] + chain[j + 1..] <==> y in chain && key(y) != key(chain[j])
  {
    var chain' := chain[..j] + chain[j + 1..];
    assert forall k :: 0 <= k < |chain'| ==> chain'[k] == chain[if k < j then k else k + 1];
    forall y
      ensures y in chain' <==> y in chain && key(y) != key(chain[j])
    {
      if y in chain && key(y) != key(chain[j]) {
        var k :| 0 <= k < |chain| && chain[k] == y;
        assert chain'[if k < j then k else k - 1] == y;
      }
    }
  }

  // ---------- runs ----------

  datatype Op<K, T> = Insert(item: T) | Delete(k: K) | Retrieve(k: K)

  function Lookup<K, T>(m: map<K, T>, k: K): Option<T>
  {
    if k in m then Some(m[k]) else None
  }

  function MapStep<K, T>(key: T -> K, m: map<K, T>, op: Op<K, T>): (map<K, T>, Option<T>)
  {
    match op
    case Insert(x) => (m[key(x) := x], Lookup(m, key(x)))
    case Delete(k) => (m - {k}, Lookup(m, k))
    case Retrieve(k) => (m, Lookup(m, k))
  }

  /** The contents and answers of a plain finite map after a sequence of operations. */
  function MapRun<K, T>(key: T -> K, m: map<K, T>, ops: seq<Op<K, T>>): (map<K, T>, seq<Option<T>>)
  {
    if ops == [] then (m, []) else
    var (m', answers) := MapRun(key, m, ops[..|ops| - 1]);
    var (m'', answer) := MapStep(key, m', ops[|ops| - 1]);
    (m'', answers + [answer])
  }

  lemma MapRunStep<K, T>(key: T -> K, m: map<K, T>, ops: seq<Op<K, T>>, i: nat)
    requires i < |ops|
    ensures var (m', answers) := MapRun(key, m, ops[..i]);
            var (m'', answer) := MapStep(key, m', ops[i]);
            MapRun(key, m, ops[..i + 1]) == (m'', answers + [answer])
  {
    assert ops[..i + 1][..i] == ops[..i];
  }

  // ---------- the table ----------

  lemma ShareNext<K, T>(key: T -> K, hash: K -> nat, chain: seq<T>, i: nat, nni: nat, p: nat,
                        keep: seq<T>, moved: seq<T>)
    requires 0 < nni && i < |chain|
    requires NoDup(key, chain)
    requires SharesOut(key, hash, chain[..i], nni, p, keep, moved)
    ensures if Rem(hash(key(chain[i])), nni) != p
            then SharesOut(key, hash, chain[..i + 1], nni, p, keep, [chain[i]] + moved)
            else SharesOut(key, hash, chain[..i + 1], nni, p, keep + [chain[i]], moved)
  {
    hide Rem;
    assert chain[..i + 1] == chain[..i] + [chain[i]];
    assert forall y :: y in chain[..i] ==> key(y) != key(chain[i]);
  }

  /** The relinking loop of a split: nodes that hash elsewhere are pushed on the new chain. */
  method SplitChain<K, T(!new)>(key: T -> K, hash: K -> nat, chain: seq<T>, nni: nat, p: nat)
    returns (keep: seq<T>, moved: seq<T>)
    requires 0 < nni
    requires NoDup(key, chain)
    ensures SharesOut(key, hash, chain, nni, p, keep, moved)
    ensures |keep| + |moved| == |chain|
  {
    hide Rem;
    keep, moved := [], [];
    assert SharesOut(key, hash, chain[..0], nni, p, keep, moved);
    hide SharesOut;
    var i := 0;
    while i < |chain|
      invariant i <= |chain|
      invariant SharesOut(key, hash, chain[..i], nni, p, keep, moved)
      invariant |keep| + |moved| == i
    {
      var x := chain[i];
      RemIsMod(hash(key(x)), nni);
      ShareNext(key, hash, chain, i, nni, p, keep, moved);
      if hash(key(x)) % nni != p {
        moved := [x] + moved;
      } else {
        keep := keep + [x];
      }
      i := i + 1;
    }
    assert chain[..i] == chain;
  }

  class HashTable<K(==,!new), T(!new)> {
    const key: T -> K
    const hash: K -> nat
    ghost var contents: map<K, T>
    var b: seq<seq<T>>
    var numNodes: nat
    var numAllocNodes: nat
    var p: nat
    var pmax: nat
    var numItems: nat

    /** Structure and addressing, without the load bounds. */
    ghost predicate Consistent()
      reads this
    {
      && |b| == numAllocNodes == 2 * pmax
      && numNodes == pmax + p
      && Doubled(pmax)
      && Shape(key, hash, b, p, pmax, contents)
      && numItems == |contents|
    }

    ghost predicate Valid()
      reads this
    {
      Consistent() && LoadBounds(numItems, numNodes)
    }

    constructor (key: T -> K, hash: K -> nat)
      ensures Valid()
      ensures contents == map[]
      ensures this.key == key && this.hash == hash
    {
      this.key, this.hash := key, hash;
      contents := map[];
      b := seq(MIN_NODES, _ => []);
      numNodes, numAllocNodes := MIN_NODES / 2, MIN_NODES;
      p, pmax := 0, MIN_NODES / 2;
      numItems := 0;
    }

    /** Splits bucket p, doubling the array when p reaches the end of a round. */
    method Expand()
      requires Consistent()
      modifies this
      ensures Consistent()
      ensures contents == old(contents)
      ensures numNodes == old(numNodes) + 1 && numItems == old(numItems)
      ensures (p, pmax) == Next(old(p), old(pmax))
    {
      hide Placed, Stored;
      ghost var before := b;
      DoubledAtLeast(pmax);
      var nni, oldP, oldPmax := numAllocNodes, p, pmax;
      if p + 1 >= pmax {
        b := b + seq(nni, _ => []);
        pmax, numAllocNodes, p := nni, 2 * nni, 0;
      } else {
        p := p + 1;
      }
      numNodes := numNodes + 1;
      assert NoDup(key, before[oldP]);
      var keep, moved := SplitChain(key, hash, b[oldP], nni, oldP);
      b := b[oldP := keep][oldP + oldPmax := moved];
      SplitKeeps(key, hash, before, oldP, oldPmax, contents, keep, moved);
    }

    /** Merges the last bucket into its partner, halving the array at the start of a round. */
    method Contract()
      requires Consistent()
      requires numNodes > MIN_NODES
      modifies this
      ensures Consistent()
      ensures contents == old(contents)
      ensures numNodes == old(numNodes) - 1 && numItems == old(numItems)
      ensures Next(p, pmax) == (old(p), old(pmax))
    {
      hide Placed, Stored;
      ghost var before := b;
      DoubledAtLeast(pmax);
      var np := b[p + pmax - 1];
      b := b[p + pmax - 1 := []];
      if p == 0 {
        b := b[..pmax];
        numAllocNodes, pmax := numAllocNodes / 2, pmax / 2;
        p := pmax - 1;
      } else {
        p := p - 1;
      }
      numNodes := numNodes - 1;
      b := b[p := b[p] + np];
      MergeKeeps(key, hash, before, p, pmax, contents);
    }

    /** The slot of a key and its position in the chain there; the end when absent. */
    method GetRn(k: K) returns (nn: nat, j: nat)
      requires Consistent()
      ensures nn == Bucket(hash(k), p, pmax) && nn < |b|
      ensures j <= |b[nn]|
      ensures if j < |b[nn]| then k in contents && contents[k] == b[nn][j] else k !in contents
      ensures forall i :: 0 <= i < j ==> key(b[nn][i]) != k
      ensures j < |b[nn]| ==> key(b[nn][j]) == k
    {
      RemIsMod(hash(k), pmax);
      RemIsMod(hash(k), numAllocNodes);
      nn := hash(k) % pmax;
      if nn < p {
        nn := hash(k) % numAllocNodes;
      }
      j := 0;
      while j < |b[nn]| && key(b[nn][j]) != k
        invariant j <= |b[nn]|
        invariant forall i :: 0 <= i < j ==> key(b[nn][i]) != k
      {
        j := j + 1;
      }
      LookupInChain(key, hash, b, p, pmax, contents, k, j);
    }

    method Insert(data: T) returns (ret: Option<T>)
      requires Valid()
      modifies this
      ensures Valid()
      ensures contents == old(contents)[key(data) := data]
      ensures ret == Lookup(old(contents), key(data))
    {
      hide Placed, Stored;
      LoadTests(numItems, numNodes);
      if AtUpLoad(numItems, numNodes) {
        Expand();
      }
      ghost var before := b;
      var k := key(data);
      var nn, j := GetRn(k);
      var chain := b[nn];
      assert NoDup(key, before[nn]);
      if j == |chain| {
        LinkAtEnd(key, chain, data);
        b := b[nn := chain + [data]];
        ret := None;
        numItems := numItems + 1;
      } else {
        Overwrite(key, chain, j, data);
        ret := Some(chain[j]);
        b := b[nn := chain[j := data]];
      }
      ChainUpdate(key, hash, before, p, pmax, contents, k, b[nn], contents[k := data]);
      contents := contents[k := data];
    }

    method Delete(k: K) returns (ret: Option<T>)
      requires Valid()
      modifies this
      ensures Valid()
      ensures contents == old(contents) - {k}
      ensures ret == Lookup(old(contents), k)
    {
      hide Placed, Stored;
      ghost var before := b;
      var nn, j := GetRn(k);
      var chain := b[nn];
      if j == |chain| {
        return None;
      }
      assert NoDup(key, before[nn]);
      Unlink(key, chain, j);
      ret := Some(chain[j]);
      b := b[nn := chain[..j] + chain[j + 1..]];
      ChainUpdate(key, hash, before, p, pmax, contents, k, b[nn], contents - {k});
      contents := contents - {k};
      numItems := numItems - 1;
      LoadTests(numItems, numNodes);
      if numNodes > MIN_NODES && AtDownLoad(numItems, numNodes) {
        Contract();
      }
    }

    method Retrieve(k: K) returns (ret: Option<T>)
      requires Valid()
      ensures ret == Lookup(contents, k)
    {
      var nn, j := GetRn(k);
      ret := if j < |b[nn]| then Some(b[nn][j]) else None;
    }

    /** Walks the buckets from top to bottom and meets every entry exactly once. */
    method DoAll() returns (visited: seq<T>)
      requires Valid()
      ensures NoDup(key, visited)
      ensures forall x :: x in visited <==> key(x) in contents && contents[key(x)] == x
    {
      visited := [];
      var i := numNodes;
      while i > 0
        invariant 0 <= i <= numNodes
        invariant NoDup(key, visited)
        invariant forall x :: x in visited ==> exists j :: i <= j < |b| && x in b[j]
        invariant forall j, x :: i <= j < |b| && x in b[j] ==> x in visited
      {
        i := i - 1;
        assert NoDup(key, b[i]);
        forall x, y | x in visited && y in b[i]
          ensures key(x) != key(y)
        {
          var j :| i < j < |b| && x in b[j];
        }
        JoinNoDup(key, visited, b[i]);
        visited := visited + b[i];
      }
    }

    /** Any sequence of calls answers as the finite map would, across every split and merge. */
    method Run(ops: seq<Op<K, T>>) returns (answers: seq<Option<T>>)
      requires Valid()
      modifies this
      ensures Valid()
      ensures (contents, answers) == MapRun(key, old(contents), ops)
    {
      hide Shape, Doubled;
      answers := [];
      for i := 0 to |ops|
        invariant Valid()
        invariant (contents, answers) == MapRun(key, old(contents), ops[..i])
      {
        var answer;
        match ops[i] {
          case Insert(x) => answer := Insert(x);
          case Delete(k) => answer := Delete(k);
          case Retrieve(k) => answer := Retrieve(k);
        }
        answers := answers + [answer];
        MapRunStep(key, old(contents), ops, i);
      }
      assert ops[..|ops|] == ops;
    }
  }
}
