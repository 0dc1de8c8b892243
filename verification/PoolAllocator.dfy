/** One pool of equal blocks with its stack of free indices. */
module Pools {
  import Indices

  predicate DistinctInts(s: seq<int>) { forall i, j | 0 <= i < j < |s| :: s[i] != s[j] }

  predicate Within(s: seq<int>, n: nat) { forall i | 0 <= i < |s| :: 0 <= s[i] < n }

  /** Distinct numbers below n are at most n. */
  lemma {:induction false} AtMost(s: seq<int>, n: nat)
    requires DistinctInts(s) && Within(s, n)
    ensures |s| <= n
    decreases n
  {
    if s == [] {
    } else {
      assert 0 <= s[0] < n;
      if i :| 0 <= i < |s| && s[i] == n - 1 {
        var t := s[..i] + s[i + 1..];
        assert forall k | 0 <= k < |t| :: t[k] == (if k < i then s[k] else s[k + 1]);
        AtMost(t, n - 1);
      } else {
        AtMost(s, n - 1);
      }
    }
  }

  /** An index that is not free leaves room in the free list. */
  lemma RoomFor(s: seq<int>, n: nat, x: int)
    requires DistinctInts(s) && Within(s, n) && 0 <= x < n && x !in s
    ensures |s| < n
  {
    AtMost(s + [x], n);
  }

  class Pool {
    const base: nat
    const total: nat
    const blockSize: nat
    const freeList: array<int>
    var freeCount: nat

    ghost predicate Valid()
      reads this, freeList
    {
      && 4 <= blockSize && 0 < base
      && freeList.Length == total && freeCount <= total
      && DistinctInts(Free()) && Within(Free(), total)
    }

    /** The free indices: the prefix of the list. */
    ghost function Free(): seq<int>
      reads this, freeList
    {
      if freeCount <= freeList.Length then freeList[..freeCount] else []
    }

    /** The pointer lies in the memory of the pool. */
    predicate Owns(p: int) { base <= p < base + total * blockSize }

    /** The pointer is the start of a block. */
    predicate AtBlock(p: int)
      requires blockSize > 0
    {
      Owns(p) && (p - base) % blockSize == 0
    }

    function Block(i: int): int { base + i * blockSize }

    lemma BlockFacts(i: int)
      requires blockSize > 0 && 0 <= i < total
      ensures AtBlock(Block(i)) && (Block(i) - base) / blockSize == i
      ensures Block(i) + blockSize <= base + total * blockSize
    {
      Indices.IndexInRange(i, 0, total, blockSize);
      Indices.IndexJoin(i, 0, blockSize);
      Indices.IndexInRange(i, blockSize - 1, total, blockSize);
    }

    lemma BlockOf(p: int)
      requires blockSize > 0 && AtBlock(p)
      ensures var i := (p - base) / blockSize; 0 <= i < total && Block(i) == p
    {
      Indices.IndexSplit(p - base, total, blockSize);
    }

    lemma AtBlockOwned(p: int)
      requires blockSize > 0 && AtBlock(p)
      ensures Owns(p) && p >= base
    {
    }

    /** Different blocks do not overlap. */
    lemma BlocksApart(i: int, j: int)
      requires i < j
      ensures Block(i) + blockSize <= Block(j)
    {
      Indices.TimesAtLeast(j - i, blockSize);
      assert (j - i) * blockSize == j * blockSize - i * blockSize;
    }

    constructor (base: nat, total: nat, blockSize: nat)
      requires 0 < base && 4 <= blockSize
      ensures Valid() && fresh(freeList) && this.base == base && this.total == total && this.blockSize == blockSize
      ensures forall i | 0 <= i < total :: i in Free()
    {
      this.base := base;
      this.total := total;
      this.blockSize := blockSize;
      freeList := new int[total];
      freeCount := 0;
      new;
      for i := 0 to total
        invariant forall k | 0 <= k < i :: freeList[k] == k
      {
        freeList[i] := i;
      }
      freeCount := total;
      forall i | 0 <= i < total ensures i in Free() {
        assert Free()[i] == i;
      }
    }

    /** Pops a free index. */
    method Acquire() returns (ok: bool, idx: int)
      requires Valid()
      modifies this
      ensures Valid()
      ensures ok == (old(Free()) != [])
      ensures !ok ==> Free() == old(Free())
      ensures ok ==> old(Free()) == Free() + [idx] && 0 <= idx < total && idx !in Free()
    {
      if freeCount == 0 {
        return false, -1;
      }
      ghost var free := Free();
      freeCount := freeCount - 1;
      idx := freeList[freeCount];
      assert free == Free() + [idx];
      assert forall k | 0 <= k < freeCount :: Free()[k] == free[k];
      return true, idx;
    }

    /** Pushes the index of a block that is in use. */
    method GiveBack(idx: int)
      requires Valid() && 0 <= idx < total && idx !in Free()
      modifies this, freeList
      ensures Valid() && Free() == old(Free()) + [idx]
    {
      RoomFor(Free(), total, idx);
      freeList[freeCount] := idx;
      freeCount := freeCount + 1;
      assert Free() == old(Free()) + [idx];
    }
  }

  /**
   init_pool, given whether the lock could be made, where the zeroed blocks are (0 for nowhere), and
   whether there was memory for the free list. A pool that could not be initialised has no blocks.
   */
  method InitPool(base: nat, total: nat, blockSize: nat, lockOk: bool, listOk: bool) returns (rc: int, pool: Pool)
    requires 4 <= blockSize
    ensures rc == if lockOk && base > 0 && listOk then 0 else -1
    ensures fresh(pool) && fresh(pool.freeList) && pool.Valid() && pool.blockSize == blockSize
    ensures rc == 0 ==> pool.base == base && pool.total == total
    ensures rc != 0 ==> pool.base == 1 && pool.total == 0
    ensures forall i | 0 <= i < pool.total :: i in pool.Free()
  {
    if !lockOk || base == 0 || !listOk {
      pool := new Pool(1, 0, blockSize);
      return -1, pool;
    }
    pool := new Pool(base, total, blockSize);
    return 0, pool;
  }
}

/** Two pools with the system allocator behind them, over an address-indexed memory. */
module PoolAllocation {
  import opened Bytes
  import opened Pools

  /** The bytes of the address space. */
  type Memory = int -> Byte

  /** The byte at a after a copy of n bytes from src to dst. */
  function CopiedByte(m: Memory, dst: int, src: int, n: nat, a: int): Byte {
    if dst <= a < dst + n then m(src + (a - dst)) else m(a)
  }

  /** m after a copy of n bytes from src to dst. */
  function Copied(m: Memory, dst: int, src: int, n: nat): Memory { a => CopiedByte(m, dst, src, n, a) }

  /** m after the int -1 that marks a pool block as taken was written at p. */
  function Marked(m: Memory, p: int): Memory {
    a => if p <= a < p + 4 then 0xFF else m(a)
  }

  /** The four bytes at p are those of the int -1. */
  ghost predicate MinusOneAt(m: Memory, p: int) {
    m(p) == 0xFF && m(p + 1) == 0xFF && m(p + 2) == 0xFF && m(p + 3) == 0xFF
  }

  /** m' agrees with m outside the n bytes from p. */
  ghost predicate WrittenAt(m: Memory, m': Memory, p: int, n: nat) {
    forall a {:trigger m'(a)} :: p <= a < p + n || m'(a) == m(a)
  }

  lemma CopiedWrites(m: Memory, dst: int, src: int, n: nat)
    ensures WrittenAt(m, Copied(m, dst, src, n), dst, n)
  {
  }

  lemma MarkedWrites(m: Memory, p: int)
    ensures WrittenAt(m, Marked(m, p), p, 4)
  {
  }

  /** The ranges of m bytes from p and n bytes from q do not overlap. */
  predicate Apart(p: int, m: nat, q: int, n: nat) { p + m <= q || q + n <= p }

  /** The blocks in use are exactly the blocks that are not free, and each is large enough. */
  ghost predicate Complement(pool: Pool, free: seq<int>, live: map<int, nat>)
    requires pool.blockSize > 0
  {
    && (forall i | 0 <= i < pool.total :: pool.Block(i) in live <==> i !in free)
    && (forall p | p in live && pool.Owns(p) :: pool.AtBlock(p) && live[p] <= pool.blockSize)
  }

  lemma ComplementTake(pool: Pool, free: seq<int>, live: map<int, nat>, idx: int, size: nat)
    requires pool.blockSize > 0 && 0 <= idx < pool.total && idx !in free && size <= pool.blockSize
    requires Complement(pool, free + [idx], live)
    ensures pool.Block(idx) !in live && pool.Owns(pool.Block(idx))
    ensures Complement(pool, free, live[pool.Block(idx) := size])
  {
    hide Pool.Block, Pool.AtBlock, Pool.Owns;
    var p := pool.Block(idx);
    pool.BlockFacts(idx);
    pool.AtBlockOwned(p);
    assert idx in free + [idx];
    forall i | 0 <= i < pool.total ensures pool.Block(i) in live[p := size] <==> i !in free {
      pool.BlockFacts(i);
      assert i in free + [idx] <==> i in free || i == idx;
    }
  }

  lemma ComplementGive(pool: Pool, free: seq<int>, live: map<int, nat>, p: int)
    requires pool.blockSize > 0 && p in live && pool.Owns(p) && Complement(pool, free, live)
    ensures pool.AtBlock(p)
    ensures var idx := (p - pool.base) / pool.blockSize;
            0 <= idx < pool.total && idx !in free && Complement(pool, free + [idx], live - {p})
  {
    hide Pool.Block, Pool.AtBlock, Pool.Owns;
    var idx := (p - pool.base) / pool.blockSize;
    pool.BlockOf(p);
    forall i | 0 <= i < pool.total ensures pool.Block(i) in live - {p} <==> i !in free + [idx] {
      pool.BlockFacts(i);
      assert i in free + [idx] <==> i in free || i == idx;
    }
  }

  lemma ComplementOther(pool: Pool, free: seq<int>, live: map<int, nat>, p: int, size: nat)
    requires pool.blockSize > 0 && !pool.Owns(p) && Complement(pool, free, live)
    ensures Complement(pool, free, live[p := size]) && Complement(pool, free, live - {p})
  {
    hide Pool.Block, Pool.AtBlock, Pool.Owns;
    forall i | 0 <= i < pool.total ensures pool.Block(i) != p {
      pool.BlockFacts(i);
      pool.AtBlockOwned(pool.Block(i));
    }
  }

  class Allocator {
    const small: Pool
    const medium: Pool
    /** The contents of the address space. */
    ghost var mem: Memory
    /** The pointers in use, with the size each was requested with. */
    ghost var live: map<int, nat>

    ghost function Footprint(): set<object> { {this, small, small.freeList, medium, medium.freeList} }

    predicate InPools(p: int) { small.Owns(p) || medium.Owns(p) }

    /** The bytes set aside for a pointer requested with the given size. */
    function Extent(p: int, size: nat): nat {
      if small.Owns(p) then small.blockSize else if medium.Owns(p) then medium.blockSize
      else if size == 0 then 1 else size
    }

    /** A system block keeps clear of both pools. */
    predicate OutsidePools(p: int, n: nat) {
      && Apart(p, n, small.base, small.total * small.blockSize)
      && Apart(p, n, medium.base, medium.total * medium.blockSize)
    }

    /** The pools are two pieces of memory. */
    ghost predicate Separate() {
      && 4 <= small.blockSize && 4 <= medium.blockSize && 0 < small.base && 0 < medium.base
      && small != medium && small.freeList != medium.freeList
      && Apart(small.base, small.total * small.blockSize, medium.base, medium.total * medium.blockSize)
    }

    /** System blocks in use keep clear of the pools and of each other. */
    ghost predicate Layout(l: map<int, nat>) {
      && (forall p | p in l :: p > 0)
      && (forall p | p in l && !InPools(p) :: OutsidePools(p, Extent(p, l[p])))
      && (forall p, q | p in l && q in l && p != q && !InPools(p) && !InPools(q) ::
            Apart(p, Extent(p, l[p]), q, Extent(q, l[q])))
    }

    ghost predicate Valid()
      reads Footprint()
    {
      && Separate() && small.Valid() && medium.Valid()
      && Complement(small, small.Free(), live) && Complement(medium, medium.Free(), live) && Layout(live)
    }

    /** What the system allocator may return for n bytes: memory that no block in use covers. */
    ghost predicate SystemMayReturn(l: map<int, nat>, p: int, n: nat) {
      var m := if n == 0 then 1 else n;
      && p > 0 && OutsidePools(p, m)
      && forall q | q in l && !InPools(q) :: Apart(p, m, q, Extent(q, l[q]))
    }

    lemma SystemBlock(l: map<int, nat>, p: int, n: nat)
      requires Separate() && Layout(l) && SystemMayReturn(l, p, n)
      ensures !InPools(p) && p !in l && Layout(l[p := n])
    {
    }

    lemma PoolBlock(l: map<int, nat>, p: int, n: nat)
      requires Layout(l) && p > 0 && InPools(p)
      ensures Layout(l[p := n])
    {
    }

    constructor (small: Pool, medium: Pool, ghost mem: Memory)
      requires small.Valid() && medium.Valid() && small != medium && small.freeList != medium.freeList
      requires Apart(small.base, small.total * small.blockSize, medium.base, medium.total * medium.blockSize)
      requires forall i | 0 <= i < small.total :: i in small.Free()
      requires forall i | 0 <= i < medium.total :: i in medium.Free()
      ensures Valid() && live == map[] && fresh(this) && this.small == small && this.medium == medium && this.mem == mem
    {
      this.small := small;
      this.medium := medium;
      this.mem := mem;
      live := map[];
    }

    /** The block of a live pool pointer lies inside its pool, and it is in one pool only. */
    lemma InsidePool(p: int, fs: seq<int>, fm: seq<int>, l: map<int, nat>)
      requires Separate() && p in l && Complement(small, fs, l) && Complement(medium, fm, l)
      ensures small.Owns(p) ==> p + small.blockSize <= small.base + small.total * small.blockSize
      ensures medium.Owns(p) ==> p + medium.blockSize <= medium.base + medium.total * medium.blockSize
      ensures !(small.Owns(p) && medium.Owns(p))
    {
      if small.Owns(p) {
        small.BlockOf(p);
        small.BlockFacts((p - small.base) / small.blockSize);
      }
      if medium.Owns(p) {
        medium.BlockOf(p);
        medium.BlockFacts((p - medium.base) / medium.blockSize);
      }
    }

    lemma BlocksOfPoolApart(pool: Pool, free: seq<int>, l: map<int, nat>, p: int, q: int)
      requires pool.blockSize > 0 && Complement(pool, free, l)
      requires p in l && q in l && p != q && pool.Owns(p) && pool.Owns(q)
      ensures Apart(p, pool.blockSize, q, pool.blockSize)
    {
      pool.BlockOf(p);
      pool.BlockOf(q);
      var i, j := (p - pool.base) / pool.blockSize, (q - pool.base) / pool.blockSize;
      if i < j {
        pool.BlocksApart(i, j);
      } else if j < i {
        pool.BlocksApart(j, i);
      }
    }

    /** Live pointers have pairwise disjoint blocks, each at least as large as was requested. */
    lemma LiveApart(p: int, q: int)
      requires Valid() && p in live && q in live && p != q
      ensures Apart(p, Extent(p, live[p]), q, Extent(q, live[q]))
      ensures Extent(p, live[p]) >= live[p]
    {
      hide Pool.Block, Pool.AtBlock;
      InsidePool(p, small.Free(), medium.Free(), live);
      InsidePool(q, small.Free(), medium.Free(), live);
      if small.Owns(p) && small.Owns(q) {
        BlocksOfPoolApart(small, small.Free(), live, p, q);
      } else if medium.Owns(p) && medium.Owns(q) {
        BlocksOfPoolApart(medium, medium.Free(), live, p, q);
      }
    }

    /** m agrees with mem on the block of every pointer of l except one. */
    ghost predicate BlocksKept(m: Memory, m': Memory, l: map<int, nat>, except: int) {
      forall q, a {:trigger q in l, m'(a)} | q in l && q != except && q <= a < q + Extent(q, l[q]) :: m'(a) == m(a)
    }

    /** The block of a pool for a request of the given size, or 0 when the pool is exhausted. */
    method PoolMalloc(pool: Pool, size: nat) returns (p: int)
      requires Valid() && (pool == small || pool == medium) && size <= pool.blockSize
      modifies this`mem, this`live, pool
      ensures Valid()
      ensures p == 0 <==> old(pool.Free()) == []
      ensures p == 0 ==> live == old(live)
      ensures p != 0 ==> p !in old(live) && live == old(live)[p := size] && pool.Owns(p) && MinusOneAt(mem, p)
      ensures BlocksKept(old(mem), mem, old(live), 0)
    {
      hide Complement, Layout, Pool.Block, Pool.AtBlock;
      var ok, idx := pool.Acquire();
      if !ok {
        return 0;
      }
      p := pool.Block(idx);
      ComplementTake(pool, pool.Free(), live, idx, size);

      ComplementOther(if pool == small then medium else small,
                      if pool == small then medium.Free() else small.Free(), live, p, size);
      PoolBlock(live, p, size);
      ghost var before := live;
      live := live[p := size];
      MarkedWrites(mem, p);
      WriteKeeps(before, p, 4, mem, Marked(mem, p));
      mem := Marked(mem, p);
    }

    /** Writing to the first n bytes of one block leaves the others alone. */
    lemma WriteKeeps(l: map<int, nat>, p: int, n: nat, m: Memory, m': Memory)
      requires Valid() && p in live && n <= Extent(p, live[p])
      requires forall q | q in l && q != p :: q in live && live[q] == l[q]
      requires WrittenAt(m, m', p, n)
      ensures BlocksKept(m, m', l, p)
    {
      hide Extent, Allocator.Valid;
      forall q | q in l && q != p ensures Apart(q, Extent(q, l[q]), p, Extent(p, live[p])) {
        LiveApart(q, p);
      }
    }

    /** mec_malloc; system is what the system allocator would return for the request, 0 on failure. */
    method Malloc(size: nat, system: int) returns (p: int)
      requires Valid() && (system != 0 ==> SystemMayReturn(live, system, size))
      modifies this`mem, this`live, small, medium
      ensures Valid()
      ensures var pool := if size <= small.blockSize then small else medium;
        && (size <= pool.blockSize && old(pool.Free()) != [] ==> p != 0 && pool.Owns(p) && MinusOneAt(mem, p))
        && (size > pool.blockSize || old(pool.Free()) == [] ==> p == system)
      ensures p == 0 ==> live == old(live)
      ensures p != 0 ==> p !in old(live) && live == old(live)[p := size]
      ensures BlocksKept(old(mem), mem, old(live), 0)
    {
      hide Complement, Layout, Extent, Pool.Owns, SystemMayReturn;
      p := 0;
      if size <= small.blockSize {
        p := PoolMalloc(small, size);
      } else if size <= medium.blockSize {
        p := PoolMalloc(medium, size);
      }
      if p == 0 {
        p := system;
        if p != 0 {
          TakeSystemBlock(p, size);
        }
      }
    }

    /** Records a block obtained from the system allocator. */
    ghost method TakeSystemBlock(p: int, size: nat)
      requires Valid() && SystemMayReturn(live, p, size)
      modifies this`live
      ensures Valid() && p !in old(live) && live == old(live)[p := size] && !InPools(p)
    {
      hide Complement, Layout, Extent, Pool.Owns, SystemMayReturn, Allocator.InPools;
      SystemBlock(live, p, size);
      NotInPools(p);
      ComplementOther(small, small.Free(), live, p, size);
      ComplementOther(medium, medium.Free(), live, p, size);
      live := live[p := size];
    }

    lemma NotInPools(p: int)
      ensures InPools(p) <==> small.Owns(p) || medium.Owns(p)
    {
    }

    /**
     mec_free of null, of a pool pointer in use, or of any pointer outside the pools, which may come from
     the system and not from here. A pool pointer goes back to the free list of its own pool; toSystem
     says that the pointer was passed to the system allocator instead.
     */
    method Free(p: int) returns (toSystem: bool)
      requires Valid() && (InPools(p) ==> p in live)
      modifies this`live, small, small.freeList, medium, medium.freeList
      ensures Valid() && live == old(live) - {p}
      ensures toSystem <==> p != 0 && !InPools(p)
      ensures small.Owns(p) ==> small.Free() == old(small.Free()) + [(p - small.base) / small.blockSize]
      ensures !small.Owns(p) ==> small.Free() == old(small.Free())
      ensures medium.Owns(p) ==> medium.Free() == old(medium.Free()) + [(p - medium.base) / medium.blockSize]
      ensures !medium.Owns(p) ==> medium.Free() == old(medium.Free())
    {
      hide Complement, Layout, Pool.Block;
      if p == 0 {
        ZeroNotLive();
        return false;
      }
      if InPools(p) {
        InsidePool(p, small.Free(), medium.Free(), live);
      }
      RemoveKeepsLayout(live, p);
      if small.Owns(p) {
        ComplementGive(small, small.Free(), live, p);
        ComplementOther(medium, medium.Free(), live, p, 0);
        RoomFor(small.Free(), small.total, (p - small.base) / small.blockSize);
        if (p - small.base) % small.blockSize == 0 {
          if small.freeCount < small.total {
            small.GiveBack((p - small.base) / small.blockSize);
            live := live - {p};
            return false;
          }
        }
      }
      if medium.Owns(p) {
        ComplementGive(medium, medium.Free(), live, p);
        ComplementOther(small, small.Free(), live, p, 0);
        RoomFor(medium.Free(), medium.total, (p - medium.base) / medium.blockSize);
        if (p - medium.base) % medium.blockSize == 0 {
          if medium.freeCount < medium.total {
            medium.GiveBack((p - medium.base) / medium.blockSize);
            live := live - {p};
            return false;
          }
        }
      }
      ComplementOther(small, small.Free(), live, p, 0);
      ComplementOther(medium, medium.Free(), live, p, 0);
      live := live - {p};
      return true;
    }

    lemma ZeroNotLive()
      requires Valid()
      ensures 0 !in live && live - {0} == live
    {
    }

    lemma RemoveKeepsLayout(l: map<int, nat>, p: int)
      requires Layout(l)
      ensures Layout(l - {p})
    {
    }

    /** The blocks of other pointers keep their bytes, and the common prefix of the moved block is kept. */
    ghost predicate Moved(m: Memory, m': Memory, l: map<int, nat>, p: int, q: int, n: nat) {
      && BlocksKept(m, m', l, p)
      && forall a {:trigger m'(a)} | q <= a < q + n :: m'(a) == m(p + (a - q))
    }

    /**
     mec_realloc. A null pointer is an allocation and size zero a deallocation; a pool block is
     copied to a new block, a system block is handed to the system. On failure nothing changes.
     system is what the system allocator would return for the request.
     */
    method Realloc(p: int, size: nat, system: int) returns (q: int)
      requires Valid() && (p != 0 ==> p in live)
      requires system != 0 && (p == 0 || InPools(p)) ==> SystemMayReturn(live, system, size)
      requires system != 0 && p != 0 && !InPools(p) ==> SystemMayReturn(live - {p}, system, size)
      modifies this`mem, this`live, small, small.freeList, medium, medium.freeList
      ensures Valid()
      ensures (p == 0 || InPools(p)) && (p == 0 || size != 0) ==>
        var pool := if size <= small.blockSize then small else medium;
        if size <= pool.blockSize && old(pool.Free()) != [] then q != 0 && pool.Owns(q) else q == system
      ensures p != 0 && size != 0 && !InPools(p) ==> q == system
      ensures p == 0 && q == 0 ==> live == old(live)
      ensures p == 0 && q != 0 ==> q !in old(live) && live == old(live)[q := size]
      ensures p != 0 && size == 0 ==> q == 0 && live == old(live) - {p}
      ensures p != 0 && size != 0 && q == 0 ==> live == old(live) && BlocksKept(old(mem), mem, old(live), 0)
      ensures p != 0 && size != 0 && q != 0 ==>
        && q !in old(live) - {p} && live == (old(live) - {p})[q := size]
        && Moved(old(mem), mem, old(live), p, q, if size < old(live[p]) then size else old(live[p]))
      ensures BlocksKept(old(mem), mem, old(live), p)
    {
      hide Complement, Layout, Pool.Block, Pool.AtBlock, SystemMayReturn;
      if p == 0 {
        q := Malloc(size, system);
        return;
      }
      if size == 0 {
        var _ := Free(p);
        return 0;
      }
      if (small.Owns(p) && (p - small.base) % small.blockSize == 0)
         || (medium.Owns(p) && (p - medium.base) % medium.blockSize == 0) {
        q := ReallocPoolBlock(p, size, system);
      } else {
        LiveAligned(p);
        q := SystemRealloc(p, size, system);
      }
    }

    lemma LiveAligned(p: int)
      requires Valid() && p in live
      ensures small.Owns(p) ==> (p - small.base) % small.blockSize == 0
      ensures medium.Owns(p) ==> (p - medium.base) % medium.blockSize == 0
    {
    }

    /** Copies a pool block into a newly allocated one and frees it. */
    method ReallocPoolBlock(p: int, size: nat, system: int) returns (q: int)
      requires Valid() && p in live && InPools(p) && size != 0
      requires system != 0 ==> SystemMayReturn(live, system, size)
      modifies this`mem, this`live, small, small.freeList, medium, medium.freeList
      ensures Valid()
      ensures var pool := if size <= small.blockSize then small else medium;
        if size <= pool.blockSize && old(pool.Free()) != [] then q != 0 && pool.Owns(q) else q == system
      ensures q == 0 ==> live == old(live) && BlocksKept(old(mem), mem, old(live), 0)
      ensures q != 0 ==>
        && q !in old(live) && live == (old(live) - {p})[q := size]
        && Moved(old(mem), mem, old(live), p, q, if size < old(live[p]) then size else old(live[p]))
      ensures BlocksKept(old(mem), mem, old(live), p)
    {
      hide Complement, Layout, Pool.Block, Pool.AtBlock, SystemMayReturn, Allocator.BlocksKept, Allocator.Extent,
           Pool.Owns, Allocator.Moved;
      ghost var l, m := live, mem;
      ZeroNotLive();
      q := Malloc(size, system);
      KeptExcept(m, mem, l, p);
      if q != 0 {
        MoveBlock(p, q, size, l, m);
        MovedKeeps(m, mem, l, p, q, if size < l[p] then size else l[p]);
      }
    }

    /** Copies the pool block p into the new block q and frees it. */
    method MoveBlock(p: int, q: int, size: nat, ghost l: map<int, nat>, ghost m: Memory)
      requires Valid() && p in l && InPools(p) && q !in l && 0 !in l && live == l[q := size] && BlocksKept(m, mem, l, 0)
      modifies this`mem, this`live, small, small.freeList, medium, medium.freeList
      ensures Valid() && live == (l - {p})[q := size]
      ensures Moved(m, mem, l, p, q, if size < l[p] then size else l[p])
    {
      hide Complement, Layout, Pool.Block, Pool.AtBlock, Allocator.BlocksKept, Allocator.Extent, Pool.Owns,
           Allocator.Moved;
      ghost var k := if size < l[p] then size else l[p];
      PoolExtent(p);
      var copySize := CopySize(p, size);
      KeptOn(m, mem, l, p);
      LiveSize(q);
      CopyInto(l, m, p, q, copySize, k);
      MovedIs(m, mem, l, p, q, k);
      var _ := Free(p);
      assert l[q := size] - {p} == (l - {p})[q := size];
    }

    lemma MovedIs(m: Memory, m': Memory, l: map<int, nat>, p: int, q: int, n: nat)
      requires BlocksKept(m, m', l, 0) && 0 !in l
      requires forall a {:trigger m'(a)} | q <= a < q + n :: m'(a) == m(p + (a - q))
      ensures Moved(m, m', l, p, q, n)
    {
    }

    lemma MovedKeeps(m: Memory, m': Memory, l: map<int, nat>, p: int, q: int, n: nat)
      requires Moved(m, m', l, p, q, n)
      ensures BlocksKept(m, m', l, p)
    {
    }

    /** The number of bytes to copy: the new size, but no more than the old block holds. */
    method CopySize(p: int, size: nat) returns (n: nat)
      requires small.Owns(p) || medium.Owns(p)
      ensures var block := if small.Owns(p) then small.blockSize else medium.blockSize;
              n == if size > block then block else size
    {
      n := size;
      if small.Owns(p) {
        if n > small.blockSize {
          n := small.blockSize;
        }
      } else if p >= medium.base {
        if n > medium.blockSize {
          n := medium.blockSize;
        }
      }
    }

    /** The extent of a live pool pointer is the block size of its pool. */
    lemma PoolExtent(p: int)
      requires Valid() && p in live && InPools(p)
      ensures small.Owns(p) ==> Extent(p, live[p]) == small.blockSize
      ensures !small.Owns(p) ==> medium.Owns(p) && p >= medium.base && Extent(p, live[p]) == medium.blockSize
      ensures live[p] <= Extent(p, live[p])
    {
    }

    lemma LiveSize(p: int)
      requires Valid() && p in live
      ensures Extent(p, live[p]) >= live[p]
    {
    }

    lemma KeptExcept(m: Memory, m': Memory, l: map<int, nat>, p: int)
      requires BlocksKept(m, m', l, 0) && 0 !in l
      ensures BlocksKept(m, m', l, p)
    {
    }

    lemma KeptOn(m: Memory, m': Memory, l: map<int, nat>, p: int)
      requires BlocksKept(m, m', l, 0) && p in l && p != 0
      ensures forall a {:trigger m'(a)} | p <= a < p + Extent(p, l[p]) :: m'(a) == m(a)
    {
    }

    /** memcpy of n bytes from p into the block q, of which k come from bytes as they were in m. */
    ghost method CopyInto(l: map<int, nat>, m: Memory, p: int, q: int, n: nat, k: nat)
      requires Valid() && q in live && k <= n <= Extent(q, live[q])
      requires 0 !in l && forall x | x in l :: x != q && x in live && live[x] == l[x]
      requires BlocksKept(m, mem, l, 0)
      requires forall a {:trigger mem(a)} | p <= a < p + k :: mem(a) == m(a)
      modifies this`mem
      ensures Valid() && BlocksKept(m, mem, l, 0)
      ensures forall a {:trigger mem(a)} | q <= a < q + k :: mem(a) == m(p + (a - q))
    {
      hide Complement, Layout, Pool.Block, Pool.AtBlock, Allocator.Extent, Allocator.BlocksKept, Copied, WrittenAt;
      ghost var m1 := mem;
      ghost var m2 := Copied(m1, q, p, n);
      CopiedWrites(m1, q, p, n);
      WriteKeeps(l, q, n, m1, m2);
      ThroughBoth(m, m1, m2, l, q);
      CopiedRange(m, m1, p, q, n, k);
      mem := m2;
    }

    lemma CopiedRange(m: Memory, m1: Memory, p: int, q: int, n: nat, k: nat)
      requires k <= n && forall a {:trigger m1(a)} | p <= a < p + k :: m1(a) == m(a)
      ensures forall a {:trigger Copied(m1, q, p, n)(a)} | q <= a < q + k :: Copied(m1, q, p, n)(a) == m(p + (a - q))
    {
      var c := Copied(m1, q, p, n);
      forall a | q <= a < q + k ensures c(a) == m(p + (a - q)) {
        assert c(a) == CopiedByte(m1, q, p, n, a);
      }
    }

    lemma ThroughBoth(m: Memory, m1: Memory, m2: Memory, l: map<int, nat>, q: int)
      requires BlocksKept(m, m1, l, 0) && BlocksKept(m1, m2, l, q) && q !in l && 0 !in l
      ensures BlocksKept(m, m2, l, 0)
    {
    }

    /** realloc of the system allocator: the block moves, or stays, with its common prefix. */
    method SystemRealloc(p: int, size: nat, system: int) returns (q: int)
      requires Valid() && p in live && !InPools(p) && size != 0
      requires system != 0 ==> SystemMayReturn(live - {p}, system, size)
      modifies this`mem, this`live
      ensures Valid() && q == system
      ensures q == 0 ==> live == old(live) && mem == old(mem)
      ensures q != 0 ==>
        && q !in old(live) - {p} && live == (old(live) - {p})[q := size]
        && Moved(old(mem), mem, old(live), p, q, if size < old(live[p]) then size else old(live[p]))
      ensures BlocksKept(old(mem), mem, old(live), p)
    {
      hide Complement, Layout, Pool.Block, Pool.AtBlock, SystemMayReturn, Allocator.Extent, Allocator.BlocksKept;
      ghost var l, m := live, mem;
      ZeroNotLive();
      q := system;
      NothingWritten(m, l, p);
      if q != 0 {
        RemoveKeepsLayout(live, p);
        ComplementOther(small, small.Free(), live, p, 0);
        ComplementOther(medium, medium.Free(), live, p, 0);
        live := live - {p};
        TakeSystemBlock(q, size);
        LiveSize(q);
        ghost var n := if size < l[p] then size else l[p];
        NothingWritten(m, l - {p}, 0);
        CopyInto(l - {p}, m, p, q, n, n);
        OthersKept(m, mem, l, p);
      }
    }

    lemma NothingWritten(m: Memory, l: map<int, nat>, p: int)
      ensures BlocksKept(m, m, l, p)
    {
    }

    lemma OthersKept(m: Memory, m': Memory, l: map<int, nat>, p: int)
      requires BlocksKept(m, m', l - {p}, 0) && 0 !in l
      ensures BlocksKept(m, m', l, p)
    {
      forall x, a {:trigger x in l, m'(a)} | x in l && x != p && x <= a < x + Extent(x, l[x]) ensures m'(a) == m(a) {
        assert x in l - {p};
      }
    }
  }

  const SMALL_SIZE := 256
  const SMALL_COUNT := 64
  const MEDIUM_SIZE := 4096
  const MEDIUM_COUNT := 32

  /** mec_memory_init: a pool that could not be initialised is logged and left without blocks. */
  method InitMemory(smallBase: nat, smallLock: bool, smallList: bool,
                    mediumBase: nat, mediumLock: bool, mediumList: bool, ghost mem: Memory)
    returns (a: Allocator)
    requires smallBase > 0 && mediumBase > 0 ==>
      Apart(smallBase, SMALL_COUNT * SMALL_SIZE, mediumBase, MEDIUM_COUNT * MEDIUM_SIZE)
    ensures fresh(a.Footprint()) && a.Valid() && a.live == map[] && a.mem == mem
    ensures a.small.blockSize == 256 && a.medium.blockSize == 4096
    ensures a.small.total == if smallLock && smallBase > 0 && smallList then 64 else 0
    ensures a.medium.total == if mediumLock && mediumBase > 0 && mediumList then 32 else 0
  {
    var smallRc, small := InitPool(smallBase, SMALL_COUNT, SMALL_SIZE, smallLock, smallList);
    var mediumRc, medium := InitPool(mediumBase, MEDIUM_COUNT, MEDIUM_SIZE, mediumLock, mediumList);
    a := new Allocator(small, medium, mem);
  }
}
