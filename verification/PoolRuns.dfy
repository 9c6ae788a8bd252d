/** Whole runs of the pool allocator of src/base/opmem.c, and the count of its blocks. */
module PoolRuns {
  import opened Modular
  import opened LinearHash
  import opened PoolAllocator

  // ---------- counting blocks ----------

  ghost function ChunksOf(fathers: Fathers, c: int): set<nat>
  {
    set f | f in fathers && fathers[f].ele == c
  }

  /** The addresses of the first k blocks of a chunk. */
  ghost function FirstPtrs(fathers: Fathers, f: nat, k: nat): set<nat>
    requires f in fathers && IsPool(fathers[f].ele)
  {
    if k == 0 then {} else
    FirstPtrs(fathers, f, k - 1) + {CutOf(f, fathers[f].ele, fathers[f].base, k - 1).ptr}
  }

  /** The addresses of all blocks of the given chunks. */
  ghost function PtrsOf(fathers: Fathers, c: int, chunks: set<nat>): set<nat>
    requires IsPool(c)
  {
    set f, i | f in chunks && f in fathers && 0 <= i < BlockNum(c) :: CutOf(f, c, fathers[f].base, i).ptr
  }

  lemma {:induction false} FirstPtrsAre(fathers: Fathers, taken: set<Region>, f: nat, k: nat, p: nat)
    requires ChunksOk(fathers, taken) && f in fathers && k <= BlockNum(fathers[f].ele)
    ensures p in FirstPtrs(fathers, f, k) <==>
              exists i :: 0 <= i < k && p == CutOf(f, fathers[f].ele, fathers[f].base, i).ptr
    ensures |FirstPtrs(fathers, f, k)| == k
  {
    hide BlockSize, BlockNum, CutOf, ChunksOk;
    PoolOf(fathers, taken, f);
    if k > 0 {
      var c, base := fathers[f].ele, fathers[f].base;
      var last := CutOf(f, c, base, k - 1).ptr;
      FirstPtrsAre(fathers, taken, f, k - 1, p);
      FirstPtrsAre(fathers, taken, f, k - 1, last);
      forall i | 0 <= i < k - 1
        ensures CutOf(f, c, base, i).ptr != last
      {
        CutsDiffer(fathers, taken, f, i, k - 1);
      }
      assert last !in FirstPtrs(fathers, f, k - 1);
    }
  }

  lemma PoolOf(fathers: Fathers, taken: set<Region>, f: nat)
    requires ChunksOk(fathers, taken) && f in fathers
    ensures IsPool(fathers[f].ele)
  {
    hide BlockSize, BlockNum, TakenOk;
  }

  lemma CutsDiffer(fathers: Fathers, taken: set<Region>, f: nat, i: nat, j: nat)
    requires ChunksOk(fathers, taken) && f in fathers && IsPool(fathers[f].ele) && i < j < BlockNum(fathers[f].ele)
    ensures CutOf(f, fathers[f].ele, fathers[f].base, i).ptr != CutOf(f, fathers[f].ele, fathers[f].base, j).ptr
  {
    hide BlockSize, BlockNum, ChunksOk;
    var c := fathers[f].ele;
    var m, n := CutOf(f, c, fathers[f].base, i), CutOf(f, c, fathers[f].base, j);
    if m.ptr == n.ptr {
      SamePtr(fathers, taken, m, c, n, c);
    }
  }

  lemma {:induction false} CountPtrs(fathers: Fathers, taken: set<Region>, c: int, chunks: set<nat>)
    requires ChunksOk(fathers, taken) && IsPool(c) && chunks <= ChunksOf(fathers, c)
    ensures |PtrsOf(fathers, c, chunks)| == BlockNum(c) * |chunks|
    decreases chunks
  {
    hide BlockSize, BlockNum, CutOf, ChunksOk, PtrsOf, FirstPtrs;
    if chunks == {} {
      NoPtrs(fathers, c);
    } else {
      var f :| f in chunks;
      var rest := chunks - {f};
      CountPtrs(fathers, taken, c, rest);
      assert f in ChunksOf(fathers, c);
      FirstPtrsAre(fathers, taken, f, BlockNum(c), 0);
      PtrsSplit(fathers, taken, c, chunks, f);
      MulStep(BlockNum(c), |rest|);
    }
  }

  lemma NoPtrs(fathers: Fathers, c: int)
    requires IsPool(c)
    ensures PtrsOf(fathers, c, {}) == {}
  {
  }

  lemma PtrsSplit(fathers: Fathers, taken: set<Region>, c: int, chunks: set<nat>, f: nat)
    requires ChunksOk(fathers, taken) && IsPool(c) && chunks <= ChunksOf(fathers, c)
    requires f in chunks && f in fathers && fathers[f].ele == c
    ensures PtrsOf(fathers, c, chunks) == PtrsOf(fathers, c, chunks - {f}) + FirstPtrs(fathers, f, BlockNum(c))
    ensures PtrsOf(fathers, c, chunks - {f}) !! FirstPtrs(fathers, f, BlockNum(c))
  {
    hide BlockSize, BlockNum, CutOf, ChunksOk, FirstPtrs;
    var own := FirstPtrs(fathers, f, BlockNum(c));
    forall p
      ensures p in own <==> exists i :: 0 <= i < BlockNum(c) && p == CutOf(f, c, fathers[f].base, i).ptr
    {
      FirstPtrsAre(fathers, taken, f, BlockNum(c), p);
    }
    PtrsApart(fathers, taken, c, chunks - {f}, f);
  }

  /** Chunks share no block. */
  lemma PtrsApart(fathers: Fathers, taken: set<Region>, c: int, rest: set<nat>, f: nat)
    requires ChunksOk(fathers, taken) && IsPool(c) && rest <= ChunksOf(fathers, c)
    requires f in fathers && fathers[f].ele == c && f !in rest
    ensures forall i :: 0 <= i < BlockNum(c) ==> CutOf(f, c, fathers[f].base, i).ptr !in PtrsOf(fathers, c, rest)
  {
    hide BlockSize, BlockNum, ChunksOk;
    forall i | 0 <= i < BlockNum(c)
      ensures CutOf(f, c, fathers[f].base, i).ptr !in PtrsOf(fathers, c, rest)
    {
      var m := CutOf(f, c, fathers[f].base, i);
      if m.ptr in PtrsOf(fathers, c, rest) {
        var g, j :| g in rest && g in fathers && 0 <= j < BlockNum(c) && m.ptr == CutOf(g, c, fathers[g].base, j).ptr;
        assert g in ChunksOf(fathers, c);
        var n := CutOf(g, c, fathers[g].base, j);
        SamePtr(fathers, taken, m, c, n, c);
      }
    }
  }

  ghost function ListPtrs(list: seq<Block>): set<nat>
  {
    set n | n in list :: n.ptr
  }

  lemma {:induction false} CountList(list: seq<Block>)
    requires forall i, j :: 0 <= i < j < |list| ==> list[i].ptr != list[j].ptr
    ensures |ListPtrs(list)| == |list|
  {
    if list != [] {
      CountList(list[1..]);
      assert list == [list[0]] + list[1..];
      assert ListPtrs(list) == ListPtrs(list[1..]) + {list[0].ptr};
    }
  }

  /** Free and live blocks of a class are together exactly the cuts of its chunks. */
  lemma ClassPtrs(ele: seq<Ele>, live: Live, fathers: Fathers, taken: set<Region>, c: int)
    requires Inv(ele, live, fathers, taken) && |ele| == ELE_MAX && AllCut(ele, live, fathers) && IsPool(c)
    ensures ListPtrs(ele[c].list) + LiveOfClass(live, c) == PtrsOf(fathers, c, ChunksOf(fathers, c))
    ensures ListPtrs(ele[c].list) !! LiveOfClass(live, c)
  {
    var all := PtrsOf(fathers, c, ChunksOf(fathers, c));
    assert FreeOk(ele[c].list, c, live, fathers);
    forall p | p in ListPtrs(ele[c].list)
      ensures p in all && p !in live
    {
      var n :| n in ele[c].list && n.ptr == p;
      CutPtr(fathers, n, c);
    }
    forall p | p in LiveOfClass(live, c)
      ensures p in all
    {
      LiveOfThatClass(live, fathers, taken, c, p);
      CutPtr(fathers, live[p], c);
    }
    hide Inv;
    forall p | p in all
      ensures p in ListPtrs(ele[c].list) || p in LiveOfClass(live, c)
    {
      var n := PtrCut(fathers, c, p);
      BlockNotSystem(fathers, n, c);
    }
  }

  lemma CutPtr(fathers: Fathers, n: Block, c: int)
    requires InChunk(fathers, n, c)
    ensures n.ptr in PtrsOf(fathers, c, ChunksOf(fathers, c))
  {
    hide BlockSize, BlockNum;
    assert n.father in ChunksOf(fathers, c);
    assert n.ptr == CutOf(n.father, c, fathers[n.father].base, n.index).ptr;
  }

  lemma PtrCut(fathers: Fathers, c: int, p: nat) returns (n: Block)
    requires IsPool(c) && p in PtrsOf(fathers, c, ChunksOf(fathers, c))
    ensures InChunk(fathers, n, c) && n.ptr == p
  {
    hide BlockSize, BlockNum;
    var f, i :| f in ChunksOf(fathers, c) && f in fathers && 0 <= i < BlockNum(c) && p == CutOf(f, c, fathers[f].base, i).ptr;
    n := CutOf(f, c, fathers[f].base, i);
  }

  lemma BlockNotSystem(fathers: Fathers, n: Block, c: int)
    requires InChunk(fathers, n, c)
    ensures !IsSystem(n) && n.size == BlockSize(c)
  {
    ClassTable();
  }

  lemma LiveOfThatClass(live: Live, fathers: Fathers, taken: set<Region>, c: int, p: nat)
    requires LiveOk(live, fathers, taken) && IsPool(c) && p in LiveOfClass(live, c)
    ensures InChunk(fathers, live[p], c) && live[p].ptr == p
  {
    ClassTable();
    hide BlockSize, BlockNum;
    var d :| InChunk(fathers, live[p], d);
    assert d == c;
  }

  /** The blocks of a class are the cuts of its chunks, each free or live exactly once: none is
      ever lost and none appears. */
  lemma BlocksConserved(ele: seq<Ele>, live: Live, fathers: Fathers, taken: set<Region>, c: int)
    requires Inv(ele, live, fathers, taken) && |ele| == ELE_MAX && AllCut(ele, live, fathers) && IsPool(c)
    ensures ele[c].allNum == |ele[c].list| + |LiveOfClass(live, c)| == BlockNum(c) * |ChunksOf(fathers, c)|
  {
    ClassPtrs(ele, live, fathers, taken, c);
    CountsOf(ele, live, fathers, taken, c);
    ListDistinct(ele, live, fathers, taken, c);
    CountList(ele[c].list);
    InvChunks(ele, live, fathers, taken);
    hide Inv, AllCut, BlockNum, BlockSize, PtrsOf, ListPtrs, LiveOfClass, ChunksOf, ChunksOk;
    CountPtrs(fathers, taken, c, ChunksOf(fathers, c));
  }

  lemma ListDistinct(ele: seq<Ele>, live: Live, fathers: Fathers, taken: set<Region>, c: int)
    requires Inv(ele, live, fathers, taken) && |ele| == ELE_MAX && IsPool(c)
    ensures forall i, j :: 0 <= i < j < |ele[c].list| ==> ele[c].list[i].ptr != ele[c].list[j].ptr
  {
    hide BlockSize, BlockNum, ChunksOk, LiveOk, UsedOk, Counted, SystemOk;
    assert FreeOk(ele[c].list, c, live, fathers);
  }

  lemma InvChunks(ele: seq<Ele>, live: Live, fathers: Fathers, taken: set<Region>)
    requires Inv(ele, live, fathers, taken)
    ensures ChunksOk(fathers, taken)
  {
  }

  /** Bytes of all chunks of the classes below k. */
  ghost function ChunkBytes(fathers: Fathers, k: int): int
    requires 1 <= k <= SYS
    decreases k
  {
    if k == 1 then 0
    else ChunkBytes(fathers, k - 1) + BlockSize(k - 1) * (BlockNum(k - 1) * |ChunksOf(fathers, k - 1)|)
  }

  lemma {:induction false} BytesAreChunks(ele: seq<Ele>, live: Live, fathers: Fathers, taken: set<Region>, k: int)
    requires Inv(ele, live, fathers, taken) && |ele| == ELE_MAX && AllCut(ele, live, fathers) && 1 <= k <= SYS
    ensures UsedBytes(ele, k) + FreeBytes(ele, k) == ChunkBytes(fathers, k)
    decreases k
  {
    hide Inv, AllCut, BlockSize, BlockNum, ChunksOf, LiveOfClass;
    if k > 1 {
      BytesAreChunks(ele, live, fathers, taken, k - 1);
      BlocksConserved(ele, live, fathers, taken, k - 1);
      MulSub(BlockSize(k - 1), ele[k - 1].allNum, ele[k - 1].canUsedNum);
    }
  }

  /** pool_alloc is what the chunks add up to. */
  lemma PoolAllocIsChunks(a: Allocator)
    requires a.Valid()
    ensures a.statistic.poolAlloc == ChunkBytes(a.fathers, SYS)
  {
    hide Inv, AllCut, UsedBytes, FreeBytes, SystemBytes, Shape, Doubled, ChunkBytes, Listed;
    BytesAreChunks(a.ele, a.index.contents, a.fathers, a.taken, SYS);
  }

  // ---------- runs ----------

  datatype Step = MallocStep(size: nat) | FreeStep(ptr: nat) | ReleaseStep

  /** The system allocator, asked in a given step for len bytes while the regions in taken are out. */
  type System = (nat, set<Region>, nat) -> nat

  /** Its only promise: what it hands out is apart from what it has not got back.  In particular an
      address that was given back may be handed out again. */
  ghost predicate Honest(system: System)
  {
    forall i, taken, len :: 0 < len ==> FreshRegion(taken, system(i, taken, len), len)
  }

  /** Chunks that may not be reclaimed survive. */
  ghost predicate PoolsKept(fathers: Fathers, fathers': Fathers)
  {
    forall f :: f in fathers && !fathers[f].canFree ==> f in fathers' && SameChunk(fathers'[f], fathers[f])
  }

  /** Over every run of allocations, releases and reclaiming passes, on every honest system, the
      allocator stays valid, so live blocks never overlap and no block is lost, and no initial pool
      is ever reclaimed. */
  method Run(a: Allocator, steps: seq<Step>, system: System)
    requires a.Valid() && Honest(system)
    modifies a, a.index
    ensures a.Valid() && PoolsKept(old(a.fathers), a.fathers)
    ensures forall p, q :: p in a.index.contents && q in a.index.contents && p != q ==>
              Apart(p, a.index.contents[p].size, q, a.index.contents[q].size)
    ensures a.statistic.poolAlloc == ChunkBytes(a.fathers, SYS)
  {
    hide Inv, StatOk, AllCut, Shape, Doubled, Honest, FreshRegion, RegionLen, Listed, Filtered, ChunkBytes;
    for i := 0 to |steps|
      invariant a.Valid() && PoolsKept(old(a.fathers), a.fathers)
    {
      match steps[i] {
        case MallocStep(size) =>
          HonestAnswer(system, i, a.taken, size);
          var _ := a.Malloc(size, system(i, a.taken, RegionLen(size)));
        case FreeStep(ptr) => a.Free(ptr);
        case ReleaseStep => a.ReleaseCheck();
      }
    }
    PoolAllocIsChunks(a);
    forall p | p in a.index.contents
      ensures forall q :: q in a.index.contents && q != p ==> Apart(p, a.index.contents[p].size, q, a.index.contents[q].size)
    {
      NewApart(a.ele, a.index.contents, a.fathers, a.taken, p);
    }
  }

  lemma HonestAnswer(system: System, i: nat, taken: set<Region>, size: nat)
    requires Honest(system)
    ensures FreshRegion(taken, system(i, taken, RegionLen(size)), RegionLen(size))
  {
    RegionPositive(size);
    hide RegionLen;
  }

  lemma RegionPositive(size: nat)
    ensures 0 < RegionLen(size)
  {
    ClassTable();
    hide BlockSize, BlockNum;
    if size <= OP_MEM_MAX_SIZE {
      var c := ClassFor(size, 1);
      assert BlockSize(c) > 0 && BlockNum(c) > 0;
      MulMonotone(1, BlockSize(c), BlockNum(c));
    }
  }

  /** A large block that is given up leaves no trace in the index or with the system. */
  method TakeAndGive(a: Allocator, size: nat, base: nat) returns (ptr: nat)
    requires a.Valid() && size > OP_MEM_MAX_SIZE && FreshRegion(a.taken, base, size)
    modifies a, a.index
    ensures ptr == base && a.index.contents == old(a.index.contents) && a.taken == old(a.taken)
    ensures a.Valid()
  {
    assert RegionLen(size) == size;
    hide Inv, StatOk, AllCut, Shape, Doubled, FreshRegion, Listed, RegionLen, BlockSize, BlockNum, ClassFor, Fits, ChunksKept,
         InChunk, Given, Apart;
    ghost var live, taken := a.index.contents, a.taken;
    NotTaken(taken, base, size);
    ptr := a.Malloc(size, base);
    GivenBack(live, ptr, a.index.contents[ptr], taken, Region(base, size));
    assert IsSystem(a.index.contents[ptr]);
    a.Free(ptr);
  }

  lemma GivenBack(live: Live, p: nat, n: Block, taken: set<Region>, r: Region)
    requires p !in live && r !in taken
    ensures live[p := n] - {p} == live && (taken + {r}) - {r} == taken
  {
  }

  /** An address comes back: the system hands the region of such a block out again. */
  method AddressComesBack(a: Allocator, size: nat, base: nat) returns (first: nat, again: nat)
    requires a.Valid() && size > OP_MEM_MAX_SIZE && FreshRegion(a.taken, base, size)
    modifies a, a.index
    ensures first == again == base
    ensures a.index.contents.Keys == old(a.index.contents).Keys + {base} && a.taken == old(a.taken) + {Region(base, size)}
    ensures a.Valid()
  {
    assert RegionLen(size) == size;
    hide Inv, StatOk, AllCut, Shape, Doubled, FreshRegion, Listed, RegionLen, BlockSize, BlockNum, ClassFor, Fits, ChunksKept,
         InChunk, Given, Apart;
    first := TakeAndGive(a, size, base);
    again := a.Malloc(size, base);
  }

  lemma NotTaken(taken: set<Region>, base: nat, len: nat)
    requires FreshRegion(taken, base, len)
    ensures Region(base, len) !in taken
  {
  }
}
