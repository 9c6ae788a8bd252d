/** The pool allocator of src/base/opmem.c: size classes, chunks ("fathers") cut into
    nodes, one free list per class, an index of the live blocks, statistics, and the pass
    that gives unused chunks up.  Each method is one region under the allocator's lock. */
module PoolAllocator {
  import opened Options
  import opened LinearHash
  import opened Modular

  const OP_MEM_MAX_SIZE: nat := 1048576

  /** An entry of the static class table: block size and blocks per chunk. */
  datatype SizeClass = SizeClass(size: nat, num: nat)

  const CLASSES: seq<SizeClass> := [
    SizeClass(0, 0),
    SizeClass(16, 80), SizeClass(32, 160), SizeClass(64, 160), SizeClass(128, 160),
    SizeClass(256, 320), SizeClass(512, 320), SizeClass(1024, 320), SizeClass(2048, 320),
    SizeClass(4096, 320), SizeClass(8192, 8), SizeClass(16384, 8), SizeClass(65536, 8),
    SizeClass(524288, 4), SizeClass(1048576, 2),
    SizeClass(0, 0)]

  const SYS: nat := 15
  const ELE_MAX: nat := 16

  datatype Block = Block(ptr: nat, size: nat, index: nat, father: nat)

  datatype Father = Father(ele: nat, base: nat, size: nat, usedSize: nat, canFree: bool)

  /** The mutable part of a class. */
  datatype Ele = Ele(list: seq<Block>, canUsedNum: nat, allNum: nat, mallocNum: nat, freeNum: nat)

  predicate IsPool(c: int)
  {
    1 <= c < SYS
  }

  function BlockSize(c: int): nat
    requires IsPool(c)
  {
    CLASSES[c].size
  }

  function BlockNum(c: int): nat
    requires IsPool(c)
  {
    CLASSES[c].num
  }

  /** What the proofs need to know of the table. */
  lemma ClassTable()
    ensures forall c :: IsPool(c) ==> 0 < BlockSize(c) <= OP_MEM_MAX_SIZE && 0 < BlockNum(c)
    ensures forall c, d :: IsPool(c) && IsPool(d) && c < d ==> BlockSize(c) < BlockSize(d)
    ensures BlockSize(SYS - 1) == OP_MEM_MAX_SIZE
  {
  }

  /** The first pool class from i on whose blocks hold `size` bytes. */
  function ClassFor(size: nat, i: int): (c: int)
    requires IsPool(i) && size <= OP_MEM_MAX_SIZE
    ensures IsPool(c) && i <= c
    decreases SYS - i
  {
    if BlockSize(i) >= size || i == SYS - 1 then i else ClassFor(size, i + 1)
  }

  lemma {:induction false} ClassForFits(size: nat, i: int)
    requires IsPool(i) && size <= OP_MEM_MAX_SIZE
    requires forall j :: IsPool(j) && j < i ==> BlockSize(j) < size
    ensures Fits(ClassFor(size, i), size)
    decreases SYS - i
  {
    ClassTable();
    hide BlockSize, BlockNum;
    if BlockSize(i) < size && i < SYS - 1 {
      ClassForFits(size, i + 1);
    }
  }

  /** The smallest pool class whose blocks hold `size` bytes; none above the maximum. */
  method GetList(size: nat) returns (r: Option<nat>)
    ensures r.None? <==> size > OP_MEM_MAX_SIZE
    ensures r.Some? ==> Fits(r.value, size)
  {
    ClassTable();
    var i := 1;
    while i < ELE_MAX
      invariant 1 <= i <= ELE_MAX
      invariant forall j :: IsPool(j) && j < i ==> BlockSize(j) < size
    {
      if CLASSES[i].size >= size {
        return Some(i);
      }
      i := i + 1;
    }
    return None;
  }

  ghost predicate Fits(c: int, size: nat)
  {
    IsPool(c) && BlockSize(c) >= size && forall j :: IsPool(j) && j < c ==> BlockSize(j) < size
  }

  lemma FitsUnique(c: int, d: int, size: nat)
    requires Fits(c, size) && Fits(d, size)
    ensures c == d
  {
    ClassTable();
  }

  /** A block's own size leads back to its class. */
  lemma FitsOwn(c: int, d: int)
    requires IsPool(c) && IsPool(d)
    requires Fits(d, BlockSize(c))
    ensures d == c
  {
    ClassTable();
  }

  // ---------- memory ----------

  /** A stretch of memory handed out by the system. */
  datatype Region = Region(base: nat, len: nat)

  predicate Apart(a: nat, n: nat, b: nat, m: nat)
  {
    a + n <= b || b + m <= a
  }

  /** What the system allocator promises about a new region. */
  ghost predicate FreshRegion(taken: set<Region>, base: nat, len: nat)
  {
    0 < base && 0 < len && forall r :: r in taken ==> Apart(base, len, r.base, r.len)
  }

  ghost predicate TakenOk(taken: set<Region>)
  {
    && (forall r :: r in taken ==> 0 < r.base && 0 < r.len)
    && (forall r, q :: r in taken && q in taken && r != q ==> Apart(r.base, r.len, q.base, q.len))
  }

  // ---------- invariants ----------

  type Fathers = map<nat, Father>
  type Live = map<nat, Block>

  /** Every chunk is a region of its own, sized for its class. */
  ghost predicate ChunksOk(fathers: Fathers, taken: set<Region>)
  {
    && TakenOk(taken)
    && (forall f :: f in fathers ==>
          && IsPool(fathers[f].ele)
          && fathers[f].size == BlockSize(fathers[f].ele) * BlockNum(fathers[f].ele)
          && Region(fathers[f].base, fathers[f].size) in taken)
    && (forall f, g :: f in fathers && g in fathers && f != g ==> fathers[f].base != fathers[g].base)
  }

  /** The block is the index-th cut of its chunk, which belongs to class c. */
  ghost predicate InChunk(fathers: Fathers, n: Block, c: int)
  {
    && IsPool(c) && n.father in fathers && fathers[n.father].ele == c
    && n.size == BlockSize(c) && n.index < BlockNum(c)
    && n.ptr == fathers[n.father].base + n.index * n.size
  }

  ghost predicate IsSystem(n: Block)
  {
    n.size > OP_MEM_MAX_SIZE
  }

  /** Live blocks are indexed by address, lie in their chunk, or are system regions of their own. */
  ghost predicate LiveOk(live: Live, fathers: Fathers, taken: set<Region>)
  {
    forall p :: p in live ==>
      && live[p].ptr == p
      && if IsSystem(live[p])
         then Region(p, live[p].size) in taken && forall f :: f in fathers ==> fathers[f].base != p
         else exists c :: InChunk(fathers, live[p], c)
  }

  /** Free blocks lie in a chunk of the list's class, are not live, and are listed once. */
  ghost predicate FreeOk(list: seq<Block>, c: int, live: Live, fathers: Fathers)
  {
    && (forall n :: n in list ==> InChunk(fathers, n, c) && n.ptr !in live)
    && (forall i, j :: 0 <= i < j < |list| ==> list[i].ptr != list[j].ptr)
  }

  ghost function LiveOfFather(live: Live, f: nat): set<nat>
  {
    set p | p in live && !IsSystem(live[p]) && live[p].father == f
  }

  ghost function LiveOfClass(live: Live, c: int): set<nat>
    requires IsPool(c)
  {
    set p | p in live && !IsSystem(live[p]) && live[p].size == BlockSize(c)
  }

  /** A chunk's used size is what its live blocks add up to. */
  ghost predicate UsedOk(live: Live, fathers: Fathers)
  {
    forall f :: f in fathers ==>
      IsPool(fathers[f].ele) &&
      fathers[f].usedSize == BlockSize(fathers[f].ele) * |LiveOfFather(live, f)|
  }

  /** Free count, node count and call counts of a class. */
  ghost predicate Counted(e: Ele, c: int, live: Live)
    requires IsPool(c)
  {
    && e.canUsedNum == |e.list|
    && e.allNum == e.canUsedNum + |LiveOfClass(live, c)|
    && e.mallocNum == e.freeNum + |LiveOfClass(live, c)|
  }

  /** The system list holds exactly the live blocks above the maximum size. */
  ghost predicate SystemOk(list: seq<Block>, live: Live)
  {
    && (forall n :: n in list <==> n.ptr in live && live[n.ptr] == n && IsSystem(n))
    && (forall i, j :: 0 <= i < j < |list| ==> list[i].ptr != list[j].ptr)
  }

  ghost predicate ListsOk(ele: seq<Ele>, live: Live, fathers: Fathers)
  {
    && |ele| == ELE_MAX
    && (forall c :: IsPool(c) ==> FreeOk(ele[c].list, c, live, fathers) && Counted(ele[c], c, live))
    && SystemOk(ele[SYS].list, live)
  }

  ghost predicate Inv(ele: seq<Ele>, live: Live, fathers: Fathers, taken: set<Region>)
  {
    && ChunksOk(fathers, taken)
    && LiveOk(live, fathers, taken)
    && ListsOk(ele, live, fathers)
    && UsedOk(live, fathers)
  }

  // ---------- disjointness ----------

  lemma IndexInside(i: nat, num: nat, size: nat)
    requires i < num
    ensures i * size + size <= num * size
    ensures i * size + size <= size * num
  {
    MulMonotone(i + 1, num, size);
    assert (i + 1) * size == i * size + size;
  }

  /** A block lies inside its chunk. */
  lemma InsideChunk(fathers: Fathers, taken: set<Region>, n: Block, c: int)
    requires ChunksOk(fathers, taken) && InChunk(fathers, n, c)
    ensures fathers[n.father].base <= n.ptr
    ensures n.ptr + n.size <= fathers[n.father].base + fathers[n.father].size
  {
    hide BlockSize, BlockNum, TakenOk;
    IndexInside(n.index, BlockNum(c), n.size);
    assert fathers[n.father].size == n.size * BlockNum(c);
  }

  /** Blocks of one state with different addresses do not overlap. */
  lemma BlocksApart(fathers: Fathers, taken: set<Region>, m: Block, c: int, n: Block, d: int)
    requires ChunksOk(fathers, taken)
    requires InChunk(fathers, m, c) && InChunk(fathers, n, d)
    requires m.ptr != n.ptr
    ensures Apart(m.ptr, m.size, n.ptr, n.size)
  {
    hide BlockSize, BlockNum;
    InsideChunk(fathers, taken, m, c);
    InsideChunk(fathers, taken, n, d);
    if m.father == n.father {
      if m.index < n.index {
        IndexInside(m.index, n.index, n.size);
      } else {
        IndexInside(n.index, m.index, n.size);
      }
    } else {
      var a, b := fathers[m.father], fathers[n.father];
      assert Region(a.base, a.size) != Region(b.base, b.size);
      assert Apart(a.base, a.size, b.base, b.size);
    }
  }

  /** Live blocks never overlap. */
  lemma LiveApart(live: Live, fathers: Fathers, taken: set<Region>, p: nat, q: nat)
    requires ChunksOk(fathers, taken) && LiveOk(live, fathers, taken)
    requires p in live && q in live && p != q
    ensures Apart(p, live[p].size, q, live[q].size)
  {
    var m, n := live[p], live[q];
    if !IsSystem(m) && !IsSystem(n) {
      var c :| InChunk(fathers, m, c);
      var d :| InChunk(fathers, n, d);
      BlocksApart(fathers, taken, m, c, n, d);
    } else if IsSystem(m) && IsSystem(n) {
      assert Region(p, m.size) != Region(q, n.size);
    } else if IsSystem(m) {
      SystemApart(fathers, taken, m, n);
    } else {
      SystemApart(fathers, taken, n, m);
    }
  }

  lemma SystemApart(fathers: Fathers, taken: set<Region>, s: Block, n: Block)
    requires ChunksOk(fathers, taken)
    requires Region(s.ptr, s.size) in taken && forall f :: f in fathers ==> fathers[f].base != s.ptr
    requires exists c :: InChunk(fathers, n, c)
    ensures Apart(s.ptr, s.size, n.ptr, n.size) && Apart(n.ptr, n.size, s.ptr, s.size)
  {
    var c :| InChunk(fathers, n, c);
    InsideChunk(fathers, taken, n, c);
    var a := fathers[n.father];
    assert Region(a.base, a.size) in taken && Region(a.base, a.size) != Region(s.ptr, s.size);
  }

  /** Two blocks of one state at the same address are the same block. */
  lemma SamePtr(fathers: Fathers, taken: set<Region>, m: Block, c: int, n: Block, d: int)
    requires ChunksOk(fathers, taken)
    requires InChunk(fathers, m, c) && InChunk(fathers, n, d)
    requires m.ptr == n.ptr
    ensures m == n
  {
    ClassTable();
    hide BlockSize, BlockNum;
    InsideChunk(fathers, taken, m, c);
    InsideChunk(fathers, taken, n, d);
    if m.index < n.index {
      IndexInside(m.index, n.index, n.size);
    } else if n.index < m.index {
      IndexInside(n.index, m.index, n.size);
    }
  }

  // ---------- counting live blocks ----------

  lemma LiveAddFather(live: Live, n: Block, f: nat)
    requires n.ptr !in live
    ensures |LiveOfFather(live[n.ptr := n], f)| ==
            |LiveOfFather(live, f)| + if !IsSystem(n) && n.father == f then 1 else 0
  {
    var live' := live[n.ptr := n];
    if !IsSystem(n) && n.father == f {
      assert LiveOfFather(live', f) == LiveOfFather(live, f) + {n.ptr};
    } else {
      assert LiveOfFather(live', f) == LiveOfFather(live, f);
    }
  }

  lemma LiveAddClass(live: Live, n: Block, c: int)
    requires n.ptr !in live && IsPool(c)
    ensures |LiveOfClass(live[n.ptr := n], c)| ==
            |LiveOfClass(live, c)| + if !IsSystem(n) && n.size == BlockSize(c) then 1 else 0
  {
    hide BlockSize;
    var live' := live[n.ptr := n];
    if !IsSystem(n) && n.size == BlockSize(c) {
      assert LiveOfClass(live', c) == LiveOfClass(live, c) + {n.ptr};
    } else {
      assert LiveOfClass(live', c) == LiveOfClass(live, c);
    }
  }

  lemma LiveDropFather(live: Live, p: nat, f: nat)
    requires p in live
    ensures |LiveOfFather(live - {p}, f)| ==
            |LiveOfFather(live, f)| - if !IsSystem(live[p]) && live[p].father == f then 1 else 0
  {
    var live' := live - {p};
    if !IsSystem(live[p]) && live[p].father == f {
      assert LiveOfFather(live', f) == LiveOfFather(live, f) - {p};
    } else {
      assert LiveOfFather(live', f) == LiveOfFather(live, f);
    }
  }

  lemma LiveDropClass(live: Live, p: nat, c: int)
    requires p in live && IsPool(c)
    ensures |LiveOfClass(live - {p}, c)| ==
            |LiveOfClass(live, c)| - if !IsSystem(live[p]) && live[p].size == BlockSize(c) then 1 else 0
  {
    hide BlockSize;
    var live' := live - {p};
    if !IsSystem(live[p]) && live[p].size == BlockSize(c) {
      assert LiveOfClass(live', c) == LiveOfClass(live, c) - {p};
    } else {
      assert LiveOfClass(live', c) == LiveOfClass(live, c);
    }
  }

  lemma MulStep(a: nat, b: int)
    ensures a * (b + 1) == a * b + a
    ensures a * (b - 1) == a * b - a
  {
  }

  // ---------- what each step keeps ----------

  /** The state after the first free block of class c is taken. */
  function Taken(e: Ele): Ele
    requires e.list != [] && e.canUsedNum > 0
  {
    e.(list := e.list[1..], canUsedNum := e.canUsedNum - 1, mallocNum := e.mallocNum + 1)
  }

  function Given(e: Ele, n: Block): Ele
  {
    e.(list := e.list + [n], canUsedNum := e.canUsedNum + 1, freeNum := e.freeNum + 1)
  }

  /** Chunk, live and free facts only depend on where chunks lie, not on their used size. */
  lemma SameChunks(fathers: Fathers, f: nat, used: nat, live: Live, taken: set<Region>)
    requires f in fathers
    requires ChunksOk(fathers, taken) && LiveOk(live, fathers, taken)
    ensures var fathers' := fathers[f := fathers[f].(usedSize := used)];
            && ChunksOk(fathers', taken) && LiveOk(live, fathers', taken)
            && forall n, c :: InChunk(fathers', n, c) <==> InChunk(fathers, n, c)
  {
    hide BlockSize, BlockNum, TakenOk;
    var fathers' := fathers[f := fathers[f].(usedSize := used)];
    forall p | p in live && !IsSystem(live[p])
      ensures exists c :: InChunk(fathers', live[p], c)
    {
      var c :| InChunk(fathers, live[p], c);
      assert InChunk(fathers', live[p], c);
    }
  }

  lemma TakeClass(ele: seq<Ele>, live: Live, fathers: Fathers, taken: set<Region>, c: int, n: Block, d: int)
    requires ChunksOk(fathers, taken) && ListsOk(ele, live, fathers)
    requires IsPool(c) && IsPool(d) && ele[c].list != [] && n == ele[c].list[0]
    ensures var e' := ele[c := Taken(ele[c])][d];
            FreeOk(e'.list, d, live[n.ptr := n], fathers) && Counted(e', d, live[n.ptr := n])
  {
    ClassTable();
    hide BlockSize, BlockNum, ChunksOk;
    assert FreeOk(ele[c].list, c, live, fathers) && n in ele[c].list;
    assert FreeOk(ele[d].list, d, live, fathers) && Counted(ele[d], d, live);
    LiveAddClass(live, n, d);
    var list := ele[c := Taken(ele[c])][d].list;
    forall m | m in list
      ensures m.ptr != n.ptr && m in ele[d].list
    {
      if d == c {
        var i :| 0 <= i < |list| && list[i] == m;
        assert ele[c].list[i + 1] == m;
      } else if m.ptr == n.ptr {
        SamePtr(fathers, taken, m, d, n, c);
      }
    }
  }

  lemma TakeUsed(live: Live, fathers: Fathers, n: Block, c: int)
    requires UsedOk(live, fathers) && InChunk(fathers, n, c) && n.ptr !in live
    ensures UsedOk(live[n.ptr := n],
                   fathers[n.father := fathers[n.father].(usedSize := fathers[n.father].usedSize + n.size)])
  {
    ClassTable();
    hide BlockSize, BlockNum;
    var fathers' := fathers[n.father := fathers[n.father].(usedSize := fathers[n.father].usedSize + n.size)];
    forall f | f in fathers'
      ensures fathers'[f].usedSize == BlockSize(fathers'[f].ele) * |LiveOfFather(live[n.ptr := n], f)|
    {
      LiveAddFather(live, n, f);
      MulStep(BlockSize(fathers[f].ele), |LiveOfFather(live, f)|);
    }
  }

  lemma TakeLive(live: Live, fathers: Fathers, taken: set<Region>, sys: seq<Block>, n: Block, c: int)
    requires LiveOk(live, fathers, taken) && SystemOk(sys, live)
    requires InChunk(fathers, n, c) && n.ptr !in live
    ensures LiveOk(live[n.ptr := n], fathers, taken) && SystemOk(sys, live[n.ptr := n])
  {
    ClassTable();
    hide BlockSize, BlockNum;
    var live' := live[n.ptr := n];
    assert InChunk(fathers, live'[n.ptr], c);
    forall p | p in live && !IsSystem(live[p])
      ensures exists d :: InChunk(fathers, live'[p], d)
    {
      var d :| InChunk(fathers, live[p], d);
      assert p != n.ptr;
      assert InChunk(fathers, live'[p], d);
    }
  }

  lemma HeadIsFree(ele: seq<Ele>, live: Live, fathers: Fathers, c: int)
    requires ListsOk(ele, live, fathers)
    requires IsPool(c) && ele[c].list != []
    ensures var n := ele[c].list[0];
            InChunk(fathers, n, c) && n.ptr !in live && n.father in fathers && n.size == BlockSize(c)
    ensures ele[c].canUsedNum > 0
  {
    hide BlockSize, BlockNum;
    assert FreeOk(ele[c].list, c, live, fathers) && ele[c].list[0] in ele[c].list;
  }

  /** Taking the first free block of a class: it was not live, so the index gains an entry. */
  lemma TakeKeeps(ele: seq<Ele>, live: Live, fathers: Fathers, taken: set<Region>, c: int, n: Block)
    requires Inv(ele, live, fathers, taken)
    requires IsPool(c) && ele[c].list != [] && n == ele[c].list[0]
    ensures n.father in fathers && n.ptr !in live && n.size == BlockSize(c)
    ensures Inv(ele[c := Taken(ele[c])], live[n.ptr := n],
                fathers[n.father := fathers[n.father].(usedSize := fathers[n.father].usedSize + n.size)], taken)
  {
    hide BlockSize, BlockNum, ChunksOk, FreeOk, Counted, UsedOk, LiveOk, InChunk, SystemOk;
    HeadIsFree(ele, live, fathers, c);
    var used := fathers[n.father].usedSize + n.size;
    var fathers' := fathers[n.father := fathers[n.father].(usedSize := used)];
    var live', ele' := live[n.ptr := n], ele[c := Taken(ele[c])];
    TakeLive(live, fathers, taken, ele[SYS].list, n, c);
    SameChunks(fathers, n.father, used, live', taken);
    TakeUsed(live, fathers, n, c);
    forall d | IsPool(d)
      ensures FreeOk(ele'[d].list, d, live', fathers') && Counted(ele'[d], d, live')
    {
      TakeClass(ele, live, fathers, taken, c, n, d);
      FreeOkCongruent(ele'[d].list, d, live', fathers, fathers');
    }
  }

  lemma FreeOkCongruent(list: seq<Block>, c: int, live: Live, fathers: Fathers, fathers': Fathers)
    requires FreeOk(list, c, live, fathers)
    requires forall n, d :: InChunk(fathers', n, d) <==> InChunk(fathers, n, d)
    ensures FreeOk(list, c, live, fathers')
  {
    hide InChunk;
  }

  lemma GiveClass(ele: seq<Ele>, live: Live, fathers: Fathers, taken: set<Region>, c: int, n: Block, d: int)
    requires ChunksOk(fathers, taken) && ListsOk(ele, live, fathers)
    requires IsPool(d) && InChunk(fathers, n, c) && n.ptr in live && live[n.ptr] == n
    ensures var e' := ele[c := Given(ele[c], n)][d];
            FreeOk(e'.list, d, live - {n.ptr}, fathers) && Counted(e', d, live - {n.ptr})
  {
    ClassTable();
    hide BlockSize, BlockNum, ChunksOk;
    assert FreeOk(ele[d].list, d, live, fathers) && Counted(ele[d], d, live);
    LiveDropClass(live, n.ptr, d);
    var list := ele[c := Given(ele[c], n)][d].list;
    forall m | m in ele[d].list
      ensures m.ptr != n.ptr
    {
    }
    if d == c {
      assert |LiveOfClass(live - {n.ptr}, d)| == |LiveOfClass(live, d)| - 1;
    }
  }

  lemma GiveUsed(live: Live, fathers: Fathers, n: Block, c: int)
    requires UsedOk(live, fathers) && InChunk(fathers, n, c) && n.ptr in live && live[n.ptr] == n
    ensures fathers[n.father].usedSize >= n.size
    ensures UsedOk(live - {n.ptr},
                   fathers[n.father := fathers[n.father].(usedSize := fathers[n.father].usedSize - n.size)])
  {
    ClassTable();
    hide BlockSize, BlockNum;
    LiveDropFather(live, n.ptr, n.father);
    MulStep(BlockSize(c), |LiveOfFather(live, n.father)|);
    assert |LiveOfFather(live, n.father)| >= 1;
    MulMonotone(1, |LiveOfFather(live, n.father)|, BlockSize(c));
    var fathers' := fathers[n.father := fathers[n.father].(usedSize := fathers[n.father].usedSize - n.size)];
    forall f | f in fathers'
      ensures fathers'[f].usedSize == BlockSize(fathers'[f].ele) * |LiveOfFather(live - {n.ptr}, f)|
    {
      LiveDropFather(live, n.ptr, f);
      MulStep(BlockSize(fathers[f].ele), |LiveOfFather(live, f)|);
    }
  }

  lemma GiveLive(live: Live, fathers: Fathers, taken: set<Region>, sys: seq<Block>, p: nat)
    requires LiveOk(live, fathers, taken) && SystemOk(sys, live)
    requires p in live && !IsSystem(live[p])
    ensures LiveOk(live - {p}, fathers, taken) && SystemOk(sys, live - {p})
  {
    hide InChunk;
  }

  /** Giving a live block back to its class. */
  lemma GiveKeeps(ele: seq<Ele>, live: Live, fathers: Fathers, taken: set<Region>, c: int, n: Block)
    requires Inv(ele, live, fathers, taken)
    requires InChunk(fathers, n, c) && n.ptr in live && live[n.ptr] == n
    ensures fathers[n.father].usedSize >= n.size
    ensures Inv(ele[c := Given(ele[c], n)], live - {n.ptr},
                fathers[n.father := fathers[n.father].(usedSize := fathers[n.father].usedSize - n.size)], taken)
  {
    ClassTable();
    assert !IsSystem(n);
    hide BlockSize, BlockNum, ChunksOk, FreeOk, Counted, UsedOk, LiveOk, SystemOk;
    GiveUsed(live, fathers, n, c);
    var used := fathers[n.father].usedSize - n.size;
    var fathers' := fathers[n.father := fathers[n.father].(usedSize := used)];
    var live', ele' := live - {n.ptr}, ele[c := Given(ele[c], n)];
    GiveLive(live, fathers, taken, ele[SYS].list, n.ptr);
    SameChunks(fathers, n.father, used, live', taken);
    forall d | IsPool(d)
      ensures FreeOk(ele'[d].list, d, live', fathers') && Counted(ele'[d], d, live')
    {
      GiveClass(ele, live, fathers, taken, c, n, d);
      FreeOkCongruent(ele'[d].list, d, live', fathers, fathers');
    }
  }

  // ---------- new chunks ----------

  lemma FreshApart(taken: set<Region>, base: nat, len: nat, r: Region)
    requires TakenOk(taken) && FreshRegion(taken, base, len) && r in taken
    ensures r.base != base
    ensures TakenOk(taken + {Region(base, len)})
  {
  }

  lemma NewFatherChunks(fathers: Fathers, taken: set<Region>, f: nat, father: Father)
    requires ChunksOk(fathers, taken) && f !in fathers && IsPool(father.ele)
    requires father.size == BlockSize(father.ele) * BlockNum(father.ele)
    requires FreshRegion(taken, father.base, father.size)
    ensures ChunksOk(fathers[f := father], taken + {Region(father.base, father.size)})
  {
    hide BlockSize, BlockNum;
    forall g | g in fathers
      ensures fathers[g].base != father.base
    {
      FreshApart(taken, father.base, father.size, Region(fathers[g].base, fathers[g].size));
    }
  }

  lemma NewFatherFree(list: seq<Block>, c: int, live: Live, fathers: Fathers, f: nat, father: Father)
    requires FreeOk(list, c, live, fathers) && f !in fathers
    ensures FreeOk(list, c, live, fathers[f := father])
  {
    hide BlockSize, BlockNum;
  }

  lemma NewFatherUsed(live: Live, fathers: Fathers, taken: set<Region>, f: nat, father: Father)
    requires LiveOk(live, fathers, taken) && UsedOk(live, fathers) && f !in fathers
    requires IsPool(father.ele) && father.usedSize == 0
    ensures UsedOk(live, fathers[f := father])
  {
    hide BlockSize, BlockNum;
    assert LiveOfFather(live, f) == {};
  }

  /** A chunk over a fresh region, with no block cut from it yet. */
  lemma NewFatherKeeps(ele: seq<Ele>, live: Live, fathers: Fathers, taken: set<Region>, f: nat, father: Father)
    requires Inv(ele, live, fathers, taken)
    requires f !in fathers && IsPool(father.ele) && father.usedSize == 0
    requires father.size == BlockSize(father.ele) * BlockNum(father.ele)
    requires FreshRegion(taken, father.base, father.size)
    ensures Inv(ele, live, fathers[f := father], taken + {Region(father.base, father.size)})
  {
    assert TakenOk(taken);
    hide BlockSize, BlockNum, ChunksOk, LiveOk, UsedOk, FreeOk, Counted, SystemOk, FreshRegion, TakenOk;
    NewFatherChunks(fathers, taken, f, father);
    NewFatherLive(live, fathers, taken, f, father, taken + {Region(father.base, father.size)});
    NewFatherUsed(live, fathers, taken, f, father);
    forall d | IsPool(d)
      ensures FreeOk(ele[d].list, d, live, fathers[f := father])
    {
      NewFatherFree(ele[d].list, d, live, fathers, f, father);
    }
  }

  lemma NewFatherLive(live: Live, fathers: Fathers, taken: set<Region>, f: nat, father: Father, taken': set<Region>)
    requires TakenOk(taken) && LiveOk(live, fathers, taken) && f !in fathers
    requires FreshRegion(taken, father.base, father.size) && taken' == taken + {Region(father.base, father.size)}
    ensures LiveOk(live, fathers[f := father], taken')
  {
    hide BlockSize, BlockNum;
    var fathers' := fathers[f := father];
    forall p | p in live
      ensures if IsSystem(live[p])
              then Region(p, live[p].size) in taken' && forall g :: g in fathers' ==> fathers'[g].base != p
              else exists c :: InChunk(fathers', live[p], c)
    {
      if IsSystem(live[p]) {
        FreshApart(taken, father.base, father.size, Region(p, live[p].size));
      } else {
        var c :| InChunk(fathers, live[p], c);
        assert InChunk(fathers', live[p], c);
      }
    }
  }

  function WithCut(e: Ele, n: Block): Ele
  {
    e.(list := e.list + [n], canUsedNum := e.canUsedNum + 1, allNum := e.allNum + 1)
  }

  /** One more block of a chunk joins the free list. */
  lemma CutKeeps(ele: seq<Ele>, live: Live, fathers: Fathers, taken: set<Region>, c: int, n: Block)
    requires Inv(ele, live, fathers, taken)
    requires InChunk(fathers, n, c) && n.ptr !in live
    requires forall m :: m in ele[c].list ==> m.ptr != n.ptr
    ensures Inv(ele[c := WithCut(ele[c], n)], live, fathers, taken)
  {
    hide BlockSize, BlockNum, ChunksOk, UsedOk, LiveOk, SystemOk, InChunk;
    PoolOfChunk(fathers, n, c);
    var ele' := ele[c := WithCut(ele[c], n)];
    forall d | IsPool(d)
      ensures FreeOk(ele'[d].list, d, live, fathers) && Counted(ele'[d], d, live)
    {
      assert FreeOk(ele[d].list, d, live, fathers) && Counted(ele[d], d, live);
    }
  }

  lemma PoolOfChunk(fathers: Fathers, n: Block, c: int)
    requires InChunk(fathers, n, c)
    ensures IsPool(c) && n.father in fathers
  {
  }

  // ---------- system blocks ----------

  lemma FreshNotPool(fathers: Fathers, taken: set<Region>, p: nat, len: nat, n: Block, c: int)
    requires ChunksOk(fathers, taken) && FreshRegion(taken, p, len)
    requires InChunk(fathers, n, c)
    ensures n.ptr != p
  {
    ClassTable();
    InsideChunk(fathers, taken, n, c);
    hide BlockSize, BlockNum;
    var a := fathers[n.father];
    assert Region(a.base, a.size) in taken;
  }

  lemma SystemTakeLive(live: Live, fathers: Fathers, taken: set<Region>, sys: seq<Block>, n: Block)
    requires ChunksOk(fathers, taken) && LiveOk(live, fathers, taken) && SystemOk(sys, live)
    requires IsSystem(n) && FreshRegion(taken, n.ptr, n.size)
    ensures n.ptr !in live
    ensures ChunksOk(fathers, taken + {Region(n.ptr, n.size)})
    ensures LiveOk(live[n.ptr := n], fathers, taken + {Region(n.ptr, n.size)})
    ensures SystemOk(sys + [n], live[n.ptr := n])
  {
    ClassTable();
    hide BlockSize, BlockNum;
    if n.ptr in live {
      if IsSystem(live[n.ptr]) {
        FreshApart(taken, n.ptr, n.size, Region(n.ptr, live[n.ptr].size));
      } else {
        var c :| InChunk(fathers, live[n.ptr], c);
        FreshNotPool(fathers, taken, n.ptr, n.size, live[n.ptr], c);
      }
    }
    var live', taken' := live[n.ptr := n], taken + {Region(n.ptr, n.size)};
    forall f | f in fathers
      ensures fathers[f].base != n.ptr
    {
      FreshApart(taken, n.ptr, n.size, Region(fathers[f].base, fathers[f].size));
    }
    forall p | p in live && !IsSystem(live[p])
      ensures exists c :: InChunk(fathers, live'[p], c)
    {
      var c :| InChunk(fathers, live[p], c);
      assert InChunk(fathers, live'[p], c);
    }
  }

  /** A block from the system: indexed, listed, counted in no class. */
  lemma SystemTakeKeeps(ele: seq<Ele>, live: Live, fathers: Fathers, taken: set<Region>, n: Block)
    requires Inv(ele, live, fathers, taken)
    requires IsSystem(n) && FreshRegion(taken, n.ptr, n.size)
    ensures n.ptr !in live
    ensures Inv(ele[SYS := ele[SYS].(list := ele[SYS].list + [n])], live[n.ptr := n], fathers,
                taken + {Region(n.ptr, n.size)})
  {
    hide BlockSize, BlockNum, ChunksOk, LiveOk, SystemOk, InChunk, FreshRegion;
    SystemTakeLive(live, fathers, taken, ele[SYS].list, n);
    var live' := live[n.ptr := n];
    forall d | IsPool(d)
      ensures FreeOk(ele[d].list, d, live', fathers) && Counted(ele[d], d, live')
    {
      assert FreeOk(ele[d].list, d, live, fathers) && Counted(ele[d], d, live);
      LiveAddClass(live, n, d);
      forall m | m in ele[d].list
        ensures m.ptr != n.ptr
      {
        FreshNotPool(fathers, taken, n.ptr, n.size, m, d);
      }
    }
    forall f | f in fathers
      ensures LiveOfFather(live', f) == LiveOfFather(live, f)
    {
    }
  }

  /** The list without the block at an address. */
  function WithoutPtr(list: seq<Block>, p: nat): (r: seq<Block>)
    ensures forall n :: n in r <==> n in list && n.ptr != p
    ensures (forall i, j :: 0 <= i < j < |list| ==> list[i].ptr != list[j].ptr) ==>
              forall i, j :: 0 <= i < j < |r| ==> r[i].ptr != r[j].ptr
  {
    if list == [] then [] else
    var rest := WithoutPtr(list[1..], p);
    if list[0].ptr == p then rest else [list[0]] + rest
  }

  lemma SystemGiveChunks(fathers: Fathers, taken: set<Region>, r: Region)
    requires ChunksOk(fathers, taken)
    requires forall f :: f in fathers ==> fathers[f].base != r.base
    ensures ChunksOk(fathers, taken - {r})
  {
    hide BlockSize, BlockNum;
  }

  lemma SystemOwnRegion(live: Live, fathers: Fathers, taken: set<Region>, p: nat)
    requires LiveOk(live, fathers, taken) && p in live && IsSystem(live[p])
    ensures forall f :: f in fathers ==> fathers[f].base != p
  {
    hide InChunk;
  }

  lemma SystemGiveLive(live: Live, fathers: Fathers, taken: set<Region>, p: nat)
    requires LiveOk(live, fathers, taken)
    requires p in live && IsSystem(live[p])
    ensures LiveOk(live - {p}, fathers, taken - {Region(p, live[p].size)})
  {
    hide BlockSize, BlockNum, InChunk;
  }

  lemma SystemGiveList(live: Live, sys: seq<Block>, p: nat)
    requires SystemOk(sys, live) && p in live
    ensures SystemOk(WithoutPtr(sys, p), live - {p})
  {
  }

  lemma SystemGiveUsed(live: Live, fathers: Fathers, p: nat)
    requires UsedOk(live, fathers) && p in live && IsSystem(live[p])
    ensures UsedOk(live - {p}, fathers)
  {
    hide BlockSize, BlockNum;
    forall f | f in fathers
      ensures LiveOfFather(live - {p}, f) == LiveOfFather(live, f)
    {
    }
  }

  lemma SystemGiveKeeps(ele: seq<Ele>, live: Live, fathers: Fathers, taken: set<Region>, p: nat)
    requires Inv(ele, live, fathers, taken)
    requires p in live && IsSystem(live[p])
    ensures Inv(ele[SYS := ele[SYS].(list := WithoutPtr(ele[SYS].list, p))], live - {p}, fathers,
                taken - {Region(p, live[p].size)})
  {
    hide BlockSize, BlockNum, ChunksOk, LiveOk, UsedOk, SystemOk, InChunk;
    SystemOwnRegion(live, fathers, taken, p);
    SystemGiveChunks(fathers, taken, Region(p, live[p].size));
    SystemGiveLive(live, fathers, taken, p);
    SystemGiveList(live, ele[SYS].list, p);
    SystemGiveUsed(live, fathers, p);
    forall d | IsPool(d)
      ensures FreeOk(ele[d].list, d, live - {p}, fathers) && Counted(ele[d], d, live - {p})
    {
      assert FreeOk(ele[d].list, d, live, fathers) && Counted(ele[d], d, live);
      LiveDropClass(live, p, d);
    }
  }

  // ---------- giving a chunk up ----------

  /** The free list without the blocks of a chunk. */
  function WithoutFather(list: seq<Block>, f: nat): (r: seq<Block>)
    ensures forall n :: n in r <==> n in list && n.father != f
    ensures |r| <= |list|
    ensures (forall i, j :: 0 <= i < j < |list| ==> list[i].ptr != list[j].ptr) ==>
              forall i, j :: 0 <= i < j < |r| ==> r[i].ptr != r[j].ptr
  {
    if list == [] then [] else
    var rest := WithoutFather(list[..|list| - 1], f);
    if list[|list| - 1].father == f then rest else rest + [list[|list| - 1]]
  }

  /** A chunk with nothing in use has no live block. */
  lemma UnusedHasNoLive(live: Live, fathers: Fathers, f: nat)
    requires UsedOk(live, fathers) && f in fathers && fathers[f].usedSize == 0
    ensures LiveOfFather(live, f) == {}
  {
    ClassTable();
    hide BlockSize, BlockNum;
    var k := |LiveOfFather(live, f)|;
    if k >= 1 {
      MulMonotone(1, k, BlockSize(fathers[f].ele));
    }
  }

  function Reclaimed(e: Ele, f: nat): Ele
    requires e.canUsedNum == |e.list| <= e.allNum
  {
    var list := WithoutFather(e.list, f);
    e.(list := list, canUsedNum := |list|, allNum := e.allNum - (|e.list| - |list|))
  }

  lemma ReclaimedIs(e: Ele, f: nat)
    requires e.canUsedNum == |e.list| <= e.allNum
    ensures var kept := WithoutFather(e.list, f);
            var removed := |e.list| - |kept|;
            Reclaimed(e, f) == e.(list := kept, canUsedNum := e.canUsedNum - removed, allNum := e.allNum - removed)
  {
  }

  lemma ReclaimClass(e: Ele, d: int, live: Live, fathers: Fathers, f: nat)
    requires IsPool(d) && f in fathers
    requires FreeOk(e.list, d, live, fathers) && Counted(e, d, live)
    ensures if fathers[f].ele == d
            then FreeOk(Reclaimed(e, f).list, d, live, fathers - {f}) && Counted(Reclaimed(e, f), d, live)
            else FreeOk(e.list, d, live, fathers - {f})
  {
    hide BlockSize, BlockNum;
    forall n | n in e.list && n.father != f
      ensures InChunk(fathers - {f}, n, d)
    {
      assert InChunk(fathers, n, d);
    }
  }

  lemma ReclaimLive(live: Live, fathers: Fathers, taken: set<Region>, f: nat)
    requires LiveOk(live, fathers, taken) && UsedOk(live, fathers)
    requires f in fathers && fathers[f].usedSize == 0
    ensures LiveOk(live, fathers - {f}, taken) && UsedOk(live, fathers - {f})
  {
    hide BlockSize, BlockNum;
    UnusedHasNoLive(live, fathers, f);
    forall p | p in live && !IsSystem(live[p])
      ensures exists d :: InChunk(fathers - {f}, live[p], d)
    {
      assert p !in LiveOfFather(live, f);
      var d :| InChunk(fathers, live[p], d);
      assert InChunk(fathers - {f}, live[p], d);
    }
  }

  lemma ReclaimChunks(fathers: Fathers, taken: set<Region>, f: nat)
    requires ChunksOk(fathers, taken)
    ensures ChunksOk(fathers - {f}, taken)
  {
    hide BlockSize, BlockNum, TakenOk;
  }

  /** Dropping an unused chunk with all its free blocks. */
  lemma ReclaimKeeps(ele: seq<Ele>, live: Live, fathers: Fathers, taken: set<Region>, f: nat)
    requires Inv(ele, live, fathers, taken)
    requires f in fathers && fathers[f].usedSize == 0
    ensures var c := fathers[f].ele;
            && IsPool(c) && ele[c].canUsedNum == |ele[c].list| <= ele[c].allNum
            && Inv(ele[c := Reclaimed(ele[c], f)], live, fathers - {f}, taken)
  {
    var c := fathers[f].ele;
    hide BlockSize, BlockNum, ChunksOk, LiveOk, FreeOk, SystemOk, InChunk;
    assert Counted(ele[c], c, live);
    ReclaimChunks(fathers, taken, f);
    ReclaimLive(live, fathers, taken, f);
    var ele' := ele[c := Reclaimed(ele[c], f)];
    forall d | IsPool(d)
      ensures FreeOk(ele'[d].list, d, live, fathers - {f}) && Counted(ele'[d], d, live)
    {
      ReclaimClass(ele[d], d, live, fathers, f);
    }
  }

  // ---------- statistics ----------

  datatype Statistic = Statistic(poolAlloc: int, poolNoused: int, poolUsed: int,
                                 systemAlloc: int, systemUsed: int)

  /** Bytes in use and bytes free in the pool classes below k. */
  ghost function UsedBytes(ele: seq<Ele>, k: int): int
    requires |ele| == ELE_MAX && 1 <= k <= SYS
    decreases k
  {
    if k == 1 then 0 else
    UsedBytes(ele, k - 1) + BlockSize(k - 1) * (ele[k - 1].allNum - ele[k - 1].canUsedNum)
  }

  ghost function FreeBytes(ele: seq<Ele>, k: int): int
    requires |ele| == ELE_MAX && 1 <= k <= SYS
    decreases k
  {
    if k == 1 then 0 else FreeBytes(ele, k - 1) + BlockSize(k - 1) * ele[k - 1].canUsedNum
  }

  ghost function SystemBytes(list: seq<Block>): int
  {
    if list == [] then 0 else list[0].size + SystemBytes(list[1..])
  }

  /** The statistics agree with the lists. */
  ghost predicate StatOk(ele: seq<Ele>, st: Statistic)
    requires |ele| == ELE_MAX
  {
    && st.poolUsed == UsedBytes(ele, SYS)
    && st.poolNoused == FreeBytes(ele, SYS)
    && st.poolAlloc == st.poolUsed + st.poolNoused
    && st.systemAlloc == st.systemUsed == SystemBytes(ele[SYS].list)
  }

  lemma {:induction false} BytesUpdate(ele: seq<Ele>, c: int, e: Ele, k: int)
    requires |ele| == ELE_MAX && 1 <= k <= SYS && IsPool(c)
    ensures UsedBytes(ele[c := e], k) == UsedBytes(ele, k) +
              if c < k then BlockSize(c) * ((e.allNum - e.canUsedNum) - (ele[c].allNum - ele[c].canUsedNum)) else 0
    ensures FreeBytes(ele[c := e], k) == FreeBytes(ele, k) +
              if c < k then BlockSize(c) * (e.canUsedNum - ele[c].canUsedNum) else 0
    decreases k
  {
    hide BlockSize;
    if k > 1 {
      BytesUpdate(ele, c, e, k - 1);
      if c == k - 1 {
        MulSub(BlockSize(c), e.allNum - e.canUsedNum, ele[c].allNum - ele[c].canUsedNum);
        MulSub(BlockSize(c), e.canUsedNum, ele[c].canUsedNum);
      }
    }
  }

  lemma MulSub(a: int, b: int, c: int)
    ensures a * (b - c) == a * b - a * c
  {
  }

  /** Only pool classes enter the pool sums. */
  lemma {:induction false} BytesOfSystem(ele: seq<Ele>, e: Ele, k: int)
    requires |ele| == ELE_MAX && 1 <= k <= SYS
    ensures UsedBytes(ele[SYS := e], k) == UsedBytes(ele, k)
    ensures FreeBytes(ele[SYS := e], k) == FreeBytes(ele, k)
    decreases k
  {
    hide BlockSize;
    if k > 1 { BytesOfSystem(ele, e, k - 1); }
  }

  lemma {:induction false} SystemBytesAppend(list: seq<Block>, n: Block)
    ensures SystemBytes(list + [n]) == SystemBytes(list) + n.size
  {
    if list == [] {
      assert [n][1..] == [];
    } else {
      assert (list + [n])[1..] == list[1..] + [n];
      SystemBytesAppend(list[1..], n);
    }
  }

  lemma {:induction false} SystemBytesWithout(list: seq<Block>, n: Block)
    requires n in list
    requires forall i, j :: 0 <= i < j < |list| ==> list[i].ptr != list[j].ptr
    ensures SystemBytes(WithoutPtr(list, n.ptr)) == SystemBytes(list) - n.size
  {
    if list[0].ptr == n.ptr {
      assert list[0] == n;
      WithoutAbsent(list[1..], n.ptr);
    } else {
      SystemBytesWithout(list[1..], n);
      assert WithoutPtr(list, n.ptr)[1..] == WithoutPtr(list[1..], n.ptr);
    }
  }

  lemma {:induction false} WithoutAbsent(list: seq<Block>, p: nat)
    requires forall n :: n in list ==> n.ptr != p
    ensures WithoutPtr(list, p) == list
  {
    if list != [] { WithoutAbsent(list[1..], p); }
  }

  // ---------- the allocator ----------

  function BlockKey(n: Block): nat
  {
    n.ptr
  }

  /** op_mem_hash: the low 32 bits of the address. */
  function PtrHash(p: nat): nat
  {
    p % 0x1_0000_0000
  }

  /** The i-th block of a chunk. */
  function CutOf(f: nat, c: int, base: nat, i: nat): Block
    requires IsPool(c)
  {
    Block(base + i * BlockSize(c), BlockSize(c), i, f)
  }

  /** The first k blocks of a chunk, in list order. */
  function Cuts(f: nat, c: int, base: nat, k: nat): (r: seq<Block>)
    requires IsPool(c)
    ensures |r| == k
    ensures forall n :: n in r ==> n.father == f && n.index < k
  {
    if k == 0 then [] else Cuts(f, c, base, k - 1) + [CutOf(f, c, base, k - 1)]
  }

  function ChunkLen(c: int): nat
    requires IsPool(c)
  {
    BlockSize(c) * BlockNum(c)
  }

  /** Bytes the system is asked for when a request of `size` finds no free block. */
  function RegionLen(size: nat): nat
  {
    if size > OP_MEM_MAX_SIZE then size
    else ChunkLen(ClassFor(size, 1))
  }

  /** The next block of a chunk being cut is neither live nor listed. */
  lemma CutIsNew(ele: seq<Ele>, live: Live, fathers: Fathers, taken: set<Region>, f: nat, i: nat)
    requires Inv(ele, live, fathers, taken) && f in fathers && IsPool(fathers[f].ele)
    requires i < BlockNum(fathers[f].ele)
    requires LiveOfFather(live, f) == {}
    requires forall m :: m in ele[fathers[f].ele].list && m.father == f ==> m.index < i
    ensures var n := CutOf(f, fathers[f].ele, fathers[f].base, i);
            && InChunk(fathers, n, fathers[f].ele) && n.ptr !in live
            && forall m :: m in ele[fathers[f].ele].list ==> m.ptr != n.ptr
  {
    ClassTable();
    var c := fathers[f].ele;
    var n := CutOf(f, c, fathers[f].base, i);
    hide BlockSize, BlockNum, TakenOk, Counted;
    assert InChunk(fathers, n, c);
    if n.ptr in live {
      var m := live[n.ptr];
      if IsSystem(m) {
        SystemApart(fathers, taken, m, n);
      } else {
        assert n.ptr !in LiveOfFather(live, f);
        var d :| InChunk(fathers, m, d);
        SamePtr(fathers, taken, m, d, n, c);
      }
    }
    forall m | m in ele[c].list
      ensures m.ptr != n.ptr
    {
      assert FreeOk(ele[c].list, c, live, fathers);
      if m.ptr == n.ptr { SamePtr(fathers, taken, m, c, n, c); }
    }
  }

  lemma TakeStat(ele: seq<Ele>, c: int, n: Block, st: Statistic)
    requires |ele| == ELE_MAX && IsPool(c) && ele[c].list != [] && ele[c].canUsedNum > 0
    requires StatOk(ele, st) && n.size == BlockSize(c)
    ensures StatOk(ele[c := Taken(ele[c])],
                   st.(poolNoused := st.poolNoused - n.size, poolUsed := st.poolUsed + n.size))
  {
    hide BlockSize, UsedBytes, FreeBytes, SystemBytes;
    BytesUpdate(ele, c, Taken(ele[c]), SYS);
    MulStep(BlockSize(c), 0);
  }

  lemma GiveStat(ele: seq<Ele>, c: int, n: Block, st: Statistic)
    requires |ele| == ELE_MAX && IsPool(c)
    requires StatOk(ele, st) && n.size == BlockSize(c)
    ensures StatOk(ele[c := Given(ele[c], n)],
                   st.(poolNoused := st.poolNoused + n.size, poolUsed := st.poolUsed - n.size))
  {
    hide BlockSize, UsedBytes, FreeBytes, SystemBytes;
    BytesUpdate(ele, c, Given(ele[c], n), SYS);
    MulStep(BlockSize(c), 0);
  }

  lemma ReclaimStat(ele: seq<Ele>, c: int, f: nat, st: Statistic, gone: int)
    requires |ele| == ELE_MAX && IsPool(c) && ele[c].canUsedNum == |ele[c].list| <= ele[c].allNum
    requires StatOk(ele, st)
    requires gone == BlockSize(c) * (|ele[c].list| - |WithoutFather(ele[c].list, f)|)
    ensures StatOk(ele[c := Reclaimed(ele[c], f)],
                   st.(poolAlloc := st.poolAlloc - gone, poolNoused := st.poolNoused - gone))
  {
    hide BlockSize, UsedBytes, FreeBytes, SystemBytes, WithoutFather;
    var e := Reclaimed(ele[c], f);
    BytesUpdate(ele, c, e, SYS);
    var removed := |ele[c].list| - |e.list|;
    assert e.canUsedNum - ele[c].canUsedNum == 0 - removed;
    assert (e.allNum - e.canUsedNum) - (ele[c].allNum - ele[c].canUsedNum) == 0;
    MulSub(BlockSize(c), 0, removed);
  }

  lemma SystemGiveStat(ele: seq<Ele>, n: Block, st: Statistic)
    requires |ele| == ELE_MAX && StatOk(ele, st) && n in ele[SYS].list
    requires forall i, j :: 0 <= i < j < |ele[SYS].list| ==> ele[SYS].list[i].ptr != ele[SYS].list[j].ptr
    ensures StatOk(ele[SYS := ele[SYS].(list := WithoutPtr(ele[SYS].list, n.ptr))],
                   st.(systemAlloc := st.systemAlloc - n.size, systemUsed := st.systemUsed - n.size))
  {
    hide BlockSize, UsedBytes, FreeBytes, SystemBytes;
    BytesOfSystem(ele, ele[SYS].(list := WithoutPtr(ele[SYS].list, n.ptr)), SYS);
    SystemBytesWithout(ele[SYS].list, n);
  }

  // ---------- no block is lost ----------

  /** Every cut of every chunk is free or live. */
  ghost predicate AllCut(ele: seq<Ele>, live: Live, fathers: Fathers)
    requires |ele| == ELE_MAX
  {
    forall n, c :: InChunk(fathers, n, c) ==> n in ele[c].list || (n.ptr in live && live[n.ptr] == n)
  }

  lemma SameCuts(fathers: Fathers, f: nat, used: nat)
    requires f in fathers
    ensures forall n, c :: InChunk(fathers[f := fathers[f].(usedSize := used)], n, c) <==> InChunk(fathers, n, c)
  {
    hide BlockSize, BlockNum;
  }

  lemma TakeCuts(ele: seq<Ele>, live: Live, fathers: Fathers, c: int, n: Block, used: nat)
    requires |ele| == ELE_MAX && AllCut(ele, live, fathers) && IsPool(c) && n.father in fathers
    requires ele[c].list != [] && n == ele[c].list[0] && ele[c].canUsedNum > 0 && n.ptr !in live
    ensures AllCut(ele[c := Taken(ele[c])], live[n.ptr := n], fathers[n.father := fathers[n.father].(usedSize := used)])
  {
    SameCuts(fathers, n.father, used);
    hide InChunk;
    assert ele[c].list == [n] + ele[c].list[1..];
  }

  lemma GiveCuts(ele: seq<Ele>, live: Live, fathers: Fathers, c: int, n: Block, used: nat)
    requires |ele| == ELE_MAX && AllCut(ele, live, fathers) && n.father in fathers
    requires InChunk(fathers, n, c) && n.ptr in live && live[n.ptr] == n
    ensures AllCut(ele[c := Given(ele[c], n)], live - {n.ptr}, fathers[n.father := fathers[n.father].(usedSize := used)])
  {
    SameCuts(fathers, n.father, used);
    var ele', live' := ele[c := Given(ele[c], n)], live - {n.ptr};
    forall m, d | InChunk(fathers, m, d)
      ensures m in ele'[d].list || (m.ptr in live' && live'[m.ptr] == m)
    {
      if m == n { assert d == c; }
    }
  }

  lemma SystemTakeCuts(ele: seq<Ele>, live: Live, fathers: Fathers, n: Block)
    requires |ele| == ELE_MAX && AllCut(ele, live, fathers) && n.ptr !in live
    ensures AllCut(ele[SYS := ele[SYS].(list := ele[SYS].list + [n])], live[n.ptr := n], fathers)
  {
  }

  lemma SystemGiveCuts(ele: seq<Ele>, live: Live, fathers: Fathers, p: nat)
    requires |ele| == ELE_MAX && AllCut(ele, live, fathers) && p in live && IsSystem(live[p])
    ensures AllCut(ele[SYS := ele[SYS].(list := WithoutPtr(ele[SYS].list, p))], live - {p}, fathers)
  {
    ClassTable();
    hide BlockSize, BlockNum;
  }

  lemma ReclaimCuts(ele: seq<Ele>, live: Live, fathers: Fathers, c: int, f: nat)
    requires |ele| == ELE_MAX && AllCut(ele, live, fathers) && IsPool(c)
    requires ele[c].canUsedNum == |ele[c].list| <= ele[c].allNum
    ensures AllCut(ele[c := Reclaimed(ele[c], f)], live, fathers - {f})
  {
    hide BlockSize, BlockNum;
    forall n, d | InChunk(fathers - {f}, n, d)
      ensures n in ele[c := Reclaimed(ele[c], f)][d].list || (n.ptr in live && live[n.ptr] == n)
    {
      assert InChunk(fathers, n, d);
    }
  }

  lemma FatherCuts(ele: seq<Ele>, live: Live, fathers: Fathers, c: int, f: nat, father: Father, ele': seq<Ele>)
    requires |ele| == |ele'| == ELE_MAX && AllCut(ele, live, fathers) && IsPool(c) && f !in fathers && father.ele == c
    requires ele' == ele[c := ele'[c]] && ele'[c].list == ele[c].list + Cuts(f, c, father.base, BlockNum(c))
    ensures AllCut(ele', live, fathers[f := father])
  {
    hide BlockSize, BlockNum, Cuts;
    forall n, d | InChunk(fathers[f := father], n, d)
      ensures n in ele'[d].list || (n.ptr in live && live[n.ptr] == n)
    {
      if n.father == f {
        CutsHas(f, c, father.base, BlockNum(c), n.index);
        assert n == CutOf(f, c, father.base, n.index);
      } else {
        assert InChunk(fathers, n, d);
      }
    }
  }

  lemma {:induction false} CutsHas(f: nat, c: int, base: nat, k: nat, i: nat)
    requires IsPool(c) && i < k
    ensures CutOf(f, c, base, i) in Cuts(f, c, base, k)
  {
    hide CutOf;
    if i < k - 1 { CutsHas(f, c, base, k - 1, i); }
  }

  /** The chunk is the same up to what is in use of it. */
  predicate SameChunk(a: Father, b: Father)
  {
    a.(usedSize := 0) == b.(usedSize := 0)
  }

  ghost predicate ChunksKept(fathers: Fathers, fathers': Fathers)
  {
    forall f :: f in fathers ==> f in fathers' && SameChunk(fathers'[f], fathers[f])
  }

  ghost predicate Listed(list: seq<nat>, fathers: Fathers)
  {
    && (forall f :: f in list <==> f in fathers)
    && (forall i, j :: 0 <= i < j < |list| ==> list[i] != list[j])
  }

  /** The classes below i have their pools, and nothing else is there. */
  ghost predicate Filled(bases: seq<nat>, i: int, ele: seq<Ele>, fathers: Fathers, next: nat, taken: set<Region>)
    requires |bases| == ELE_MAX
  {
    && next == (if i < SYS then i else SYS)
    && (forall f :: f in fathers <==> IsPool(f) && f < i)
    && (forall f :: f in fathers ==> fathers[f] == Father(f, bases[f], ChunkLen(f), 0, false))
    && |ele| == ELE_MAX
    && (forall c :: IsPool(c) ==>
          ele[c].canUsedNum == ele[c].allNum == |ele[c].list| == if c < i then BlockNum(c) else 0)
    && forall r :: r in taken ==> exists c :: IsPool(c) && c < i && r == Region(bases[c], ChunkLen(c))
  }

  lemma FilledFather(bases: seq<nat>, i: nat, ele: seq<Ele>, fathers: Fathers, next: nat, taken: set<Region>)
    requires |bases| == ELE_MAX && IsPool(i) && Filled(bases, i, ele, fathers, next, taken)
    ensures next == i && |ele| == ELE_MAX && ele[i].list == []
  {
    hide BlockNum, ChunkLen;
  }

  lemma FilledNext(bases: seq<nat>, i: nat, ele: seq<Ele>, fathers: Fathers, next: nat, taken: set<Region>, e: Ele)
    requires |bases| == ELE_MAX && IsPool(i) && Filled(bases, i, ele, fathers, next, taken)
    requires |ele| == ELE_MAX && e.canUsedNum == e.allNum == |e.list| == BlockNum(i)
    ensures Filled(bases, i + 1, ele[i := e], fathers[i := Father(i, bases[i], ChunkLen(i), 0, false)], i + 1,
                   taken + {Region(bases[i], ChunkLen(i))})
  {
    hide BlockNum, ChunkLen;
  }

  class Allocator {
    const index: HashTable<nat, Block>
    var ele: seq<Ele>
    var fathers: Fathers
    var fatherList: seq<nat>
    var nextFather: nat
    var statistic: Statistic
    /** What the system has handed out and not got back; the program does not keep this itself. */
    var taken: set<Region>

    ghost predicate Valid()
      reads this, index
    {
      && |ele| == ELE_MAX
      && index.Valid() && index.key == BlockKey && index.hash == PtrHash
      && Inv(ele, index.contents, fathers, taken)
      && StatOk(ele, statistic)
      && AllCut(ele, index.contents, fathers)
      && Listed(fatherList, fathers)
      && forall f :: f in fathers ==> f < nextFather
    }

    /** One chunk per class, over the region it was given, which may never be reclaimed. */
    ghost predicate InitialPools(bases: seq<nat>)
      requires |bases| == ELE_MAX
      reads this
    {
      && (forall f :: f in fathers <==> IsPool(f))
      && (forall c: nat :: IsPool(c) ==> fathers[c] == Father(c, bases[c], ChunkLen(c), 0, false))
      && |ele| == ELE_MAX
      && (forall c :: IsPool(c) ==> ele[c].canUsedNum == ele[c].allNum == BlockNum(c))
    }

    /** opmem_init: one chunk per class, which the reclaiming pass may never take. */
    constructor (bases: seq<nat>)
      requires |bases| == ELE_MAX && InitialRegions(bases)
      ensures Valid() && fresh(index)
      ensures index.contents == map[] && InitialPools(bases)
    {
      hide BlockSize, BlockNum, Inv, StatOk, AllCut, Shape, Doubled, InitialRegions;
      index := new HashTable<nat, Block>(BlockKey, PtrHash);
      ele := seq(ELE_MAX, _ => Ele([], 0, 0, 0, 0));
      fathers, fatherList, nextFather := map[], [], 1;
      statistic := Statistic(0, 0, 0, 0, 0);
      taken := {};
      new;
      NothingYet(ele);
      FillPools(bases);
    }

    /** The class loop of opmem_init. */
    method FillPools(bases: seq<nat>)
      requires Valid() && |bases| == ELE_MAX && InitialRegions(bases)
      requires index.contents == map[] && Filled(bases, 1, ele, fathers, nextFather, taken)
      modifies this
      ensures Valid() && InitialPools(bases)
    {
      hide BlockSize, BlockNum, ChunkLen, Inv, StatOk, AllCut, Shape, Doubled, InitialRegions, Listed, FreshRegion;
      for i := 1 to ELE_MAX
        invariant Valid() && index.contents == map[] && Filled(bases, i, ele, fathers, nextFather, taken)
      {
        if IsPool(i) {
          InitialFresh(taken, bases, i);
          FillPool(bases, i);
        }
      }
    }

    method FillPool(bases: seq<nat>, i: nat)
      requires Valid() && |bases| == ELE_MAX && IsPool(i) && index.contents == map[]
      requires Filled(bases, i, ele, fathers, nextFather, taken) && FreshRegion(taken, bases[i], ChunkLen(i))
      modifies this
      ensures index.contents == map[] && Filled(bases, i + 1, ele, fathers, nextFather, taken)
      ensures Valid()
    {
      hide BlockSize, BlockNum, ChunkLen, Cuts, Inv, StatOk, AllCut, Shape, Doubled, Listed, FreshRegion, Filled;
      FilledFather(bases, i, ele, fathers, nextFather, taken);
      AddFather(i, bases[i], false);
      CountsOf(ele, index.contents, fathers, taken, i);
      FilledNext(bases, i, old(ele), old(fathers), old(nextFather), old(taken), ele[i]);
    }

    /** Hands out a block of at least `size` bytes that overlaps no live block and was not
        indexed before: the first free block of the smallest class that fits, after cutting a
        chunk over `base` if there is none, or a system block at `base` above the maximum. */
    method Malloc(size: nat, base: nat) returns (ptr: nat)
      requires Valid()
      requires size > OP_MEM_MAX_SIZE || ele[ClassFor(size, 1)].list == [] ==> FreshRegion(taken, base, RegionLen(size))
      modifies this, index
      ensures Valid()
      ensures ptr !in old(index.contents) && ptr in index.contents
      ensures index.contents == old(index.contents)[ptr := index.contents[ptr]]
      ensures if size > OP_MEM_MAX_SIZE then ptr == base && index.contents[ptr].size == size
              else Fits(ClassFor(size, 1), size) && index.contents[ptr].size == BlockSize(ClassFor(size, 1))
      ensures forall p :: p in old(index.contents) ==>
                Apart(ptr, index.contents[ptr].size, p, old(index.contents)[p].size)
      ensures ChunksKept(old(fathers), fathers) && forall f :: f in fathers && f !in old(fathers) ==> fathers[f].canFree
      ensures taken == old(taken) + if size > OP_MEM_MAX_SIZE || old(ele)[ClassFor(size, 1)].list == []
                                    then {Region(base, RegionLen(size))} else {}
    {
      hide BlockSize, BlockNum, Inv, StatOk, AllCut, Shape, Doubled, FreshRegion, Listed;
      if size > OP_MEM_MAX_SIZE {
        ptr := MallocSystem(size, base);
      } else {
        var r := GetList(size);
        ClassForFits(size, 1);
        FitsUnique(r.value, ClassFor(size, 1), size);
        ptr := MallocPool(r.value, base);
      }
      NewApart(ele, index.contents, fathers, taken, ptr);
      forall p | p in old(index.contents)
        ensures Apart(ptr, index.contents[ptr].size, p, old(index.contents)[p].size)
      {
        assert p in index.contents && index.contents[p] == old(index.contents)[p];
      }
    }

    method MallocSystem(size: nat, base: nat) returns (ptr: nat)
      requires Valid()
      requires size > OP_MEM_MAX_SIZE && FreshRegion(taken, base, size)
      modifies this, index
      ensures Valid()
      ensures ptr == base && ptr !in old(index.contents)
      ensures index.contents == old(index.contents)[ptr := Block(ptr, size, 0, 0)]
      ensures fathers == old(fathers) && taken == old(taken) + {Region(base, size)}
    {
      hide BlockSize, BlockNum, Inv, AllCut, UsedBytes, FreeBytes, SystemBytes, Shape, Doubled, FreshRegion;
      var n := Block(base, size, 0, 0);
      SystemTakeKeeps(ele, index.contents, fathers, taken, n);
      SystemTakeCuts(ele, index.contents, fathers, n);
      var replaced := index.Insert(n);
      assert replaced == None;
      var e := ele[SYS].(list := ele[SYS].list + [n]);
      BytesOfSystem(ele, e, SYS);
      SystemBytesAppend(ele[SYS].list, n);
      ele := ele[SYS := e];
      statistic := statistic.(systemAlloc := statistic.systemAlloc + size, systemUsed := statistic.systemUsed + size);
      taken := taken + {Region(base, size)};
      ptr := base;
    }

    method MallocPool(c: int, base: nat) returns (ptr: nat)
      requires Valid()
      requires IsPool(c) && (ele[c].list == [] ==> FreshRegion(taken, base, ChunkLen(c)))
      modifies this, index
      ensures ptr !in old(index.contents) && ptr in index.contents
      ensures index.contents == old(index.contents)[ptr := index.contents[ptr]]
      ensures index.contents[ptr].size == BlockSize(c)
      ensures ChunksKept(old(fathers), fathers) && forall f :: f in fathers && f !in old(fathers) ==> fathers[f].canFree
      ensures taken == old(taken) + if old(ele)[c].list == [] then {Region(base, ChunkLen(c))} else {}
      ensures Valid()
    {
      ClassTable();
      hide BlockSize, BlockNum, ChunkLen, Inv, StatOk, AllCut, Shape, Doubled, FreshRegion, Cuts, Listed;
      if ele[c].list == [] {
        AddFather(c, base, true);
      }
      ptr := TakeFirst(c);
    }

    /** Unlinks the first free block of a class and indexes it. */
    method TakeFirst(c: int) returns (ptr: nat)
      requires Valid()
      requires IsPool(c) && ele[c].list != []
      modifies this, index
      ensures ptr !in old(index.contents) && ptr in index.contents
      ensures index.contents == old(index.contents)[ptr := index.contents[ptr]]
      ensures index.contents[ptr].size == BlockSize(c)
      ensures index.contents[ptr] == old(ele)[c].list[0] && ptr == old(ele)[c].list[0].ptr
      ensures |ele| == |old(ele)| && ele == old(ele)[c := ele[c]] && ele[c].list == old(ele)[c].list[1..]
      ensures fathers.Keys == old(fathers).Keys && ChunksKept(old(fathers), fathers) && taken == old(taken)
      ensures Valid()
    {
      hide BlockSize, BlockNum, Inv, StatOk, AllCut, Shape, Doubled, Listed;
      var n := ele[c].list[0];
      HeadFacts(ele, index.contents, fathers, taken, c);
      TakeKeeps(ele, index.contents, fathers, taken, c, n);
      TakeCuts(ele, index.contents, fathers, c, n, fathers[n.father].usedSize + n.size);
      SameKeys(fatherList, fathers, n.father, fathers[n.father].(usedSize := fathers[n.father].usedSize + n.size));
      TakeStat(ele, c, n, statistic);
      var replaced := index.Insert(n);
      assert replaced == None;
      ele := ele[c := Taken(ele[c])];
      fathers := fathers[n.father := fathers[n.father].(usedSize := fathers[n.father].usedSize + n.size)];
      statistic := statistic.(poolNoused := statistic.poolNoused - n.size, poolUsed := statistic.poolUsed + n.size);
      ptr := n.ptr;
    }

    /** Takes a live block back, to the tail of the class it came from, or to the system; an
        address that is not live is left alone. */
    method Free(ptr: nat)
      requires Valid()
      modifies this, index
      ensures Valid()
      ensures index.contents == old(index.contents) - {ptr}
      ensures ptr !in old(index.contents) ==> ele == old(ele) && fathers == old(fathers) && statistic == old(statistic)
      ensures ptr in old(index.contents) && !IsSystem(old(index.contents)[ptr]) ==>
                exists c :: && InChunk(old(fathers), old(index.contents)[ptr], c)
                            && ele == old(ele)[c := Given(old(ele)[c], old(index.contents)[ptr])]
      ensures fathers.Keys == old(fathers).Keys && ChunksKept(old(fathers), fathers)
      ensures taken == old(taken) - if ptr in old(index.contents) && IsSystem(old(index.contents)[ptr])
                                    then {Region(ptr, old(index.contents)[ptr].size)} else {}
    {
      hide BlockSize, BlockNum, Inv, StatOk, AllCut, Shape, Doubled, Listed;
      var found := index.Retrieve(ptr);
      if found.None? {
        assert index.contents - {ptr} == index.contents;
        return;
      }
      var n := found.value;
      PtrOfLive(ele, index.contents, fathers, taken, ptr);
      if n.size > OP_MEM_MAX_SIZE {
        FreeSystem(n);
      } else {
        FreePool(n);
      }
    }

    method FreeSystem(n: Block)
      requires Valid()
      requires n.ptr in index.contents && index.contents[n.ptr] == n && IsSystem(n)
      modifies this, index
      ensures Valid()
      ensures index.contents == old(index.contents) - {n.ptr}
      ensures fathers == old(fathers) && taken == old(taken) - {Region(n.ptr, n.size)}
    {
      hide BlockSize, BlockNum, Inv, StatOk, AllCut, Shape, Doubled, Listed, WithoutPtr;
      SystemGiveKeeps(ele, index.contents, fathers, taken, n.ptr);
      SystemGiveCuts(ele, index.contents, fathers, n.ptr);
      SystemListed(ele, index.contents, fathers, taken, n);
      SystemGiveStat(ele, n, statistic);
      var e := ele[SYS].(list := WithoutPtr(ele[SYS].list, n.ptr));
      var gone := index.Delete(n.ptr);
      ele := ele[SYS := e];
      statistic := statistic.(systemAlloc := statistic.systemAlloc - n.size, systemUsed := statistic.systemUsed - n.size);
      taken := taken - {Region(n.ptr, n.size)};
    }

    method FreePool(n: Block)
      requires Valid()
      requires n.ptr in index.contents && index.contents[n.ptr] == n && !IsSystem(n)
      modifies this, index
      ensures Valid()
      ensures index.contents == old(index.contents) - {n.ptr}
      ensures exists c :: InChunk(old(fathers), n, c) && ele == old(ele)[c := Given(old(ele)[c], n)]
      ensures fathers.Keys == old(fathers).Keys && ChunksKept(old(fathers), fathers) && taken == old(taken)
    {
      hide BlockSize, BlockNum, Inv, StatOk, AllCut, Shape, Doubled, InChunk, Listed;
      ghost var c := ClassOfLive(ele, index.contents, fathers, taken, n.ptr);
      var r := GetList(n.size);
      FitsOwn(c, r.value);
      GiveKeeps(ele, index.contents, fathers, taken, c, n);
      GiveStat(ele, c, n, statistic);
      GiveCuts(ele, index.contents, fathers, c, n, fathers[n.father].usedSize - n.size);
      SameKeys(fatherList, fathers, n.father, fathers[n.father].(usedSize := fathers[n.father].usedSize - n.size));
      var gone := index.Delete(n.ptr);
      ele := ele[r.value := Given(ele[r.value], n)];
      fathers := fathers[n.father := fathers[n.father].(usedSize := fathers[n.father].usedSize - n.size)];
      statistic := statistic.(poolNoused := statistic.poolNoused + n.size, poolUsed := statistic.poolUsed - n.size);
    }

    /** The reclaiming pass: every releasable chunk without live blocks goes, with all its free
        blocks, and nothing else does. */
    method ReleaseCheck()
      requires Valid()
      modifies this
      ensures Valid()
      ensures fathers == map f | f in old(fathers) && !Releasable(old(fathers)[f]) :: old(fathers)[f]
      ensures Filtered(ele, old(ele), fathers.Keys)
      ensures forall f :: f in old(fathers) && f !in fathers ==> LiveOfFather(index.contents, f) == {}
      ensures taken == old(taken)
    {
      hide BlockSize, BlockNum, Inv, StatOk, AllCut, Shape, Doubled;
      ghost var fathers0, list := fathers, fatherList;
      ListedFree(ele, index.contents, fathers, taken);
      hide Filtered;
      var todo := fatherList;
      for i := 0 to |todo|
        invariant Valid()
        invariant forall f :: f in fathers <==> f in fathers0 && (f in todo[..i] ==> !Releasable(fathers0[f]))
        invariant forall f :: f in fathers ==> fathers[f] == fathers0[f]
        invariant Filtered(ele, old(ele), fathers.Keys)
        invariant forall f :: f in fathers0 && f !in fathers ==> LiveOfFather(index.contents, f) == {}
        invariant taken == old(taken)
      {
        var f := todo[i];
        assert f in todo && f !in todo[..i];
        assert todo[..i + 1] == todo[..i] + [f];
        if !Releasable(fathers[f]) {
          continue;
        }
        ghost var pre, keys := ele, fathers.Keys;
        Release(f);
        FilteredAgain(old(ele), pre, keys, ele, fathers.Keys);
      }
      assert todo[..|todo|] == todo;
    }

    /** Unlinks the free blocks of an unused chunk, then the chunk. */
    method Release(f: nat)
      requires Valid()
      requires f in fathers && Releasable(fathers[f])
      modifies this
      ensures fathers == old(fathers) - {f} && |ele| == |old(ele)| == ELE_MAX
      ensures Filtered(ele, old(ele), fathers.Keys)
      ensures LiveOfFather(index.contents, f) == {} && taken == old(taken)
      ensures Valid()
    {
      hide BlockSize, BlockNum, Inv, StatOk, AllCut, Shape, Doubled, Filtered, WithoutFather, Listed, Reclaimed;
      var c := fathers[f].ele;
      ReleaseFacts(ele, index.contents, fathers, taken, f);
      var kept, gone := DropBlocks(ele[c].list, f, BlockSize(c));
      ReclaimedIs(ele[c], f);
      ReclaimCuts(ele, index.contents, fathers, c, f);
      ReleaseKeeps(ele, index.contents, fathers, taken, fatherList, f, statistic, gone);
      var e, removed := ele[c], |ele[c].list| - |kept|;
      e := e.(list := kept, canUsedNum := e.canUsedNum - removed, allNum := e.allNum - removed);
      assert e == Reclaimed(ele[c], f);
      ele := ele[c := e];
      statistic := statistic.(poolAlloc := statistic.poolAlloc - gone, poolNoused := statistic.poolNoused - gone);
      fathers := fathers - {f};
      fatherList := Unlisted(fatherList, f);
    }

    /** Cuts a new chunk of a class and appends its blocks to the free list. */
    method AddFather(c: int, base: nat, canFree: bool)
      requires Valid()
      requires IsPool(c) && FreshRegion(taken, base, ChunkLen(c))
      modifies this
      ensures Valid()
      ensures fathers == old(fathers)[old(nextFather) := Father(c, base, ChunkLen(c), 0, canFree)]
      ensures taken == old(taken) + {Region(base, ChunkLen(c))} && nextFather == old(nextFather) + 1
      ensures ele[c].list == old(ele)[c].list + Cuts(old(nextFather), c, base, BlockNum(c))
      ensures ele == old(ele)[c := ele[c]]
      ensures ele[c].mallocNum == old(ele)[c].mallocNum && ele[c].freeNum == old(ele)[c].freeNum
    {
      hide BlockSize, BlockNum, ChunkLen, Inv, AllCut, UsedBytes, FreeBytes, SystemBytes, FreshRegion, Shape, Doubled;
      var f := nextFather;
      var father := Father(c, base, ChunkLen(c), 0, canFree);
      StartChunk(ele, index.contents, fathers, taken, f, c, father);
      fathers := fathers[f := father];
      fatherList := fatherList + [f];
      nextFather := nextFather + 1;
      taken := taken + {Region(base, father.size)};
      ghost var list0 := ele[c].list;
      for i := 0 to BlockNum(c)
        modifies `ele, `statistic
        invariant |ele| == ELE_MAX
        invariant Inv(ele, index.contents, fathers, taken) && StatOk(ele, statistic)
        invariant ele == old(ele)[c := ele[c]]
        invariant ele[c].mallocNum == old(ele)[c].mallocNum && ele[c].freeNum == old(ele)[c].freeNum
        invariant ele[c].list == list0 + Cuts(f, c, base, i)
      {
        var n := CutOf(f, c, base, i);
        CutStep(ele, index.contents, fathers, taken, f, c, i, statistic);
        ele := ele[c := WithCut(ele[c], n)];
        statistic := statistic.(poolAlloc := statistic.poolAlloc + n.size,
                                poolNoused := statistic.poolNoused + n.size);
      }
      FatherCuts(old(ele), index.contents, old(fathers), c, f, father, ele);
    }
  }

  lemma SameKeys(list: seq<nat>, fathers: Fathers, f: nat, father: Father)
    requires f in fathers && Listed(list, fathers)
    ensures Listed(list, fathers[f := father]) && fathers[f := father].Keys == fathers.Keys
  {
  }

  lemma StartChunk(ele: seq<Ele>, live: Live, fathers: Fathers, taken: set<Region>, f: nat, c: int, father: Father)
    requires Inv(ele, live, fathers, taken) && f !in fathers && IsPool(c)
    requires father.ele == c && father.size == ChunkLen(c) && father.usedSize == 0
    requires FreshRegion(taken, father.base, father.size)
    ensures Inv(ele, live, fathers[f := father], taken + {Region(father.base, father.size)})
    ensures LiveOfFather(live, f) == {}
    ensures forall m :: m in ele[c].list ==> m.father != f
  {
    hide BlockSize, BlockNum, ChunksOk, LiveOk, UsedOk, FreeOk, Counted, SystemOk, FreshRegion;
    NewFatherKeeps(ele, live, fathers, taken, f, father);
    NoLiveYet(live, fathers, taken, f);
    NoneListedYet(ele, live, fathers, c, f);
  }

  lemma CutStep(ele: seq<Ele>, live: Live, fathers: Fathers, taken: set<Region>, f: nat, c: int, i: nat,
                st: Statistic)
    requires |ele| == ELE_MAX && IsPool(c)
    requires Inv(ele, live, fathers, taken) && StatOk(ele, st)
    requires f in fathers && fathers[f].ele == c && i < BlockNum(c)
    requires LiveOfFather(live, f) == {}
    requires forall m :: m in ele[c].list && m.father == f ==> m.index < i
    ensures var n := CutOf(f, c, fathers[f].base, i);
            && Inv(ele[c := WithCut(ele[c], n)], live, fathers, taken)
            && StatOk(ele[c := WithCut(ele[c], n)],
                      st.(poolAlloc := st.poolAlloc + n.size, poolNoused := st.poolNoused + n.size))
  {
    hide BlockSize, BlockNum, Inv, UsedBytes, FreeBytes, SystemBytes, InChunk;
    CutIsNew(ele, live, fathers, taken, f, i);
    var n := CutOf(f, c, fathers[f].base, i);
    CutKeeps(ele, live, fathers, taken, c, n);
    BytesUpdate(ele, c, WithCut(ele[c], n), SYS);
    MulStep(BlockSize(c), 0);
  }

  /** The system's promise about the regions of the initial pools. */
  ghost predicate InitialRegions(bases: seq<nat>)
    requires |bases| == ELE_MAX
  {
    && (forall c :: IsPool(c) ==> 0 < bases[c])
    && (forall c, d :: IsPool(c) && IsPool(d) && c != d ==>
          Apart(bases[c], ChunkLen(c), bases[d], ChunkLen(d)))
  }

  lemma InitialFresh(taken: set<Region>, bases: seq<nat>, i: int)
    requires |bases| == ELE_MAX && InitialRegions(bases) && IsPool(i)
    requires forall r :: r in taken ==>
               exists c :: IsPool(c) && c < i && r == Region(bases[c], ChunkLen(c))
    ensures FreshRegion(taken, bases[i], ChunkLen(i))
  {
    ClassTable();
    hide BlockSize, BlockNum;
    MulMonotone(1, BlockSize(i), BlockNum(i));
  }

  lemma NothingYet(ele: seq<Ele>)
    requires ele == seq(ELE_MAX, _ => Ele([], 0, 0, 0, 0))
    ensures Inv(ele, map[], map[], {}) && AllCut(ele, map[], map[])
    ensures StatOk(ele, Statistic(0, 0, 0, 0, 0))
  {
    hide BlockSize, BlockNum, StatOk;
    NothingCounted(ele);
    forall c | IsPool(c)
      ensures LiveOfClass(map[], c) == {}
    {
    }
  }

  lemma NothingCounted(ele: seq<Ele>)
    requires ele == seq(ELE_MAX, _ => Ele([], 0, 0, 0, 0))
    ensures StatOk(ele, Statistic(0, 0, 0, 0, 0))
  {
    hide BlockSize, BlockNum, UsedBytes, FreeBytes;
    BytesOfNothing(ele, SYS);
  }

  lemma {:induction false} BytesOfNothing(ele: seq<Ele>, k: int)
    requires |ele| == ELE_MAX && 1 <= k <= SYS
    requires forall c :: IsPool(c) ==> ele[c].allNum == ele[c].canUsedNum == 0
    ensures UsedBytes(ele, k) == FreeBytes(ele, k) == 0
    decreases k
  {
    hide BlockSize;
    if k > 1 { BytesOfNothing(ele, k - 1); }
  }

  lemma CountsOf(ele: seq<Ele>, live: Live, fathers: Fathers, taken: set<Region>, c: int)
    requires Inv(ele, live, fathers, taken) && IsPool(c)
    ensures |ele| == ELE_MAX
    ensures ele[c].canUsedNum == |ele[c].list|
    ensures ele[c].allNum == ele[c].canUsedNum + |LiveOfClass(live, c)|
    ensures live == map[] ==> ele[c].allNum == |ele[c].list|
  {
    hide BlockSize, BlockNum, FreeOk;
    assert Counted(ele[c], c, live);
    if live == map[] { assert LiveOfClass(live, c) == {}; }
  }

  lemma HeadFacts(ele: seq<Ele>, live: Live, fathers: Fathers, taken: set<Region>, c: int)
    requires Inv(ele, live, fathers, taken) && |ele| == ELE_MAX && IsPool(c) && ele[c].list != []
    ensures ele[c].list[0].father in fathers && ele[c].canUsedNum > 0
  {
    hide BlockSize, BlockNum;
    HeadIsFree(ele, live, fathers, c);
  }

  lemma NewApart(ele: seq<Ele>, live: Live, fathers: Fathers, taken: set<Region>, ptr: nat)
    requires Inv(ele, live, fathers, taken) && ptr in live
    ensures forall p :: p in live && p != ptr ==> Apart(ptr, live[ptr].size, p, live[p].size)
  {
    forall p | p in live && p != ptr
      ensures Apart(ptr, live[ptr].size, p, live[p].size)
    {
      LiveApart(live, fathers, taken, ptr, p);
    }
  }

  lemma PtrOfLive(ele: seq<Ele>, live: Live, fathers: Fathers, taken: set<Region>, p: nat)
    requires Inv(ele, live, fathers, taken) && p in live
    ensures live[p].ptr == p
  {
    hide BlockSize, BlockNum, ChunksOk, UsedOk, FreeOk, Counted, SystemOk, InChunk;
  }

  predicate Releasable(father: Father)
  {
    father.canFree && father.usedSize == 0
  }

  lemma WithoutFatherNext(list: seq<Block>, i: nat, f: nat)
    requires i < |list|
    ensures WithoutFather(list[..i + 1], f) ==
            if list[i].father == f then WithoutFather(list[..i], f) else WithoutFather(list[..i], f) + [list[i]]
  {
    assert list[..i + 1][..i] == list[..i];
  }

  function Times(size: nat, n: int): int
  {
    size * n
  }

  lemma TimesNext(size: nat, n: int)
    ensures Times(size, 0) == 0 && Times(size, n + 1) == Times(size, n) + size
  {
    MulStep(size, n);
  }

  /** The inner loop of the pass: drops the blocks of a chunk and adds up their bytes. */
  method DropBlocks(list: seq<Block>, f: nat, ghost size: nat) returns (kept: seq<Block>, gone: int)
    requires forall i :: 0 <= i < |list| ==> list[i].size == size
    ensures kept == WithoutFather(list, f)
    ensures gone == Times(size, |list| - |kept|)
  {
    hide WithoutFather, Times;
    kept, gone := [], 0;
    var i := 0;
    NoneWithoutFather(f);
    TimesNext(size, 0);
    assert list[..0] == [];
    while i < |list|
      invariant 0 <= i <= |list|
      invariant kept == WithoutFather(list[..i], f)
      invariant gone == Times(size, i - |kept|)
    {
      WithoutFatherNext(list, i, f);
      TimesNext(size, i - |kept|);
      if list[i].father == f {
        gone := gone + list[i].size;
      } else {
        kept := kept + [list[i]];
      }
      i := i + 1;
    }
    assert list[..i] == list;
  }

  lemma NoneWithoutFather(f: nat)
    ensures WithoutFather([], f) == []
  {
  }

  /** The chunk list without one chunk. */
  function Unlisted(list: seq<nat>, f: nat): (r: seq<nat>)
    ensures forall g :: g in r <==> g in list && g != f
    ensures (forall i, j :: 0 <= i < j < |list| ==> list[i] != list[j]) ==>
              forall i, j :: 0 <= i < j < |r| ==> r[i] != r[j]
  {
    if list == [] then [] else
    var rest := Unlisted(list[1..], f);
    assert (forall i, j :: 0 <= i < j < |list| ==> list[i] != list[j]) ==>
             list[0] !in list[1..] && list[0] !in rest;
    if list[0] == f then rest else [list[0]] + rest
  }

  /** The free lists of ele hold the blocks of ele0's lists whose chunk is in keys. */
  ghost predicate Filtered(ele: seq<Ele>, ele0: seq<Ele>, keys: set<nat>)
    requires |ele| == |ele0| == ELE_MAX
  {
    forall c, n :: IsPool(c) ==> (n in ele[c].list <==> n in ele0[c].list && n.father in keys)
  }

  lemma FilteredAgain(ele0: seq<Ele>, ele1: seq<Ele>, keys1: set<nat>, ele2: seq<Ele>, keys2: set<nat>)
    requires |ele0| == |ele1| == |ele2| == ELE_MAX
    requires Filtered(ele1, ele0, keys1) && Filtered(ele2, ele1, keys2) && keys2 <= keys1
    ensures Filtered(ele2, ele0, keys2)
  {
  }

  lemma ListedWithout(list: seq<nat>, fathers: Fathers, f: nat)
    requires Listed(list, fathers)
    ensures Listed(Unlisted(list, f), fathers - {f})
  {
  }

  /** Every free block belongs to a listed chunk. */
  lemma ListedFree(ele: seq<Ele>, live: Live, fathers: Fathers, taken: set<Region>)
    requires Inv(ele, live, fathers, taken) && |ele| == ELE_MAX
    ensures Filtered(ele, ele, fathers.Keys)
  {
    hide BlockSize, BlockNum, ChunksOk, LiveOk, UsedOk, Counted, SystemOk;
    forall c, n | IsPool(c) && n in ele[c].list
      ensures n.father in fathers
    {
      assert FreeOk(ele[c].list, c, live, fathers);
    }
  }

  lemma ReleaseFacts(ele: seq<Ele>, live: Live, fathers: Fathers, taken: set<Region>, f: nat)
    requires Inv(ele, live, fathers, taken) && |ele| == ELE_MAX && f in fathers && fathers[f].usedSize == 0
    ensures IsPool(fathers[f].ele)
    ensures forall i :: 0 <= i < |ele[fathers[f].ele].list| ==> ele[fathers[f].ele].list[i].size == BlockSize(fathers[f].ele)
    ensures ele[fathers[f].ele].canUsedNum == |ele[fathers[f].ele].list| <= ele[fathers[f].ele].allNum
    ensures Filtered(ele[fathers[f].ele := Reclaimed(ele[fathers[f].ele], f)], ele, (fathers - {f}).Keys)
    ensures LiveOfFather(live, f) == {}
  {
    hide BlockSize, BlockNum, LiveOk, SystemOk, TakenOk;
    var c := fathers[f].ele;
    assert FreeOk(ele[c].list, c, live, fathers) && Counted(ele[c], c, live);
    var ele' := ele[c := Reclaimed(ele[c], f)];
    forall d, n | IsPool(d)
      ensures n in ele'[d].list <==> n in ele[d].list && n.father in (fathers - {f}).Keys
    {
      assert FreeOk(ele[d].list, d, live, fathers);
    }
    UnusedHasNoLive(live, fathers, f);
  }

  /** What the state after a release satisfies. */
  lemma ReleaseKeeps(ele: seq<Ele>, live: Live, fathers: Fathers, taken: set<Region>, list: seq<nat>, f: nat,
                     st: Statistic, gone: int)
    requires Inv(ele, live, fathers, taken) && |ele| == ELE_MAX && StatOk(ele, st) && Listed(list, fathers)
    requires f in fathers && fathers[f].usedSize == 0 && IsPool(fathers[f].ele)
    requires var e := ele[fathers[f].ele];
             && e.canUsedNum == |e.list| <= e.allNum
             && gone == BlockSize(fathers[f].ele) * (|e.list| - |WithoutFather(e.list, f)|)
    ensures var c := fathers[f].ele;
            && Inv(ele[c := Reclaimed(ele[c], f)], live, fathers - {f}, taken)
            && StatOk(ele[c := Reclaimed(ele[c], f)],
                      st.(poolAlloc := st.poolAlloc - gone, poolNoused := st.poolNoused - gone))
            && Listed(Unlisted(list, f), fathers - {f})
  {
    hide BlockSize, BlockNum, Inv, StatOk, WithoutFather, Listed;
    ReclaimStat(ele, fathers[f].ele, f, st, gone);
    ReclaimKeeps(ele, live, fathers, taken, f);
    ListedWithout(list, fathers, f);
  }

  lemma SystemListed(ele: seq<Ele>, live: Live, fathers: Fathers, taken: set<Region>, n: Block)
    requires Inv(ele, live, fathers, taken) && |ele| == ELE_MAX
    requires n.ptr in live && live[n.ptr] == n && IsSystem(n)
    ensures n in ele[SYS].list
    ensures forall i, j :: 0 <= i < j < |ele[SYS].list| ==> ele[SYS].list[i].ptr != ele[SYS].list[j].ptr
  {
    hide BlockSize, BlockNum, ChunksOk, LiveOk, UsedOk, FreeOk, Counted;
  }

  lemma ClassOfLive(ele: seq<Ele>, live: Live, fathers: Fathers, taken: set<Region>, p: nat) returns (c: int)
    requires Inv(ele, live, fathers, taken) && p in live && !IsSystem(live[p])
    ensures InChunk(fathers, live[p], c) && IsPool(c) && live[p].size == BlockSize(c)
    ensures live[p].ptr == p && live[p].father in fathers
  {
    hide BlockSize, BlockNum, ChunksOk, UsedOk, FreeOk, Counted, SystemOk;
    c :| InChunk(fathers, live[p], c);
  }

  lemma NoLiveYet(live: Live, fathers: Fathers, taken: set<Region>, f: nat)
    requires LiveOk(live, fathers, taken) && f !in fathers
    ensures LiveOfFather(live, f) == {}
  {
    hide BlockSize, BlockNum;
  }

  lemma NoneListedYet(ele: seq<Ele>, live: Live, fathers: Fathers, c: int, f: nat)
    requires ListsOk(ele, live, fathers) && IsPool(c) && f !in fathers
    ensures forall m :: m in ele[c].list ==> m.father != f
  {
    hide BlockSize, BlockNum;
    assert FreeOk(ele[c].list, c, live, fathers);
  }
}
