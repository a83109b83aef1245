/** The fixed-size block pool with its free list kept inside the free blocks.  Addresses
    are numbers, null is 0, and size_t arithmetic wraps at 2^64. */
module PoolAllocator {
  import opened Wrappers
  import opened WordArith

  const ALIGN: nat := 16        // alignof(std::max_align_t)
  const POINTER_SIZE: nat := 8  // sizeof(void*)

  // ----- Sizes -----

  function MinSize(blockSize: nat): nat {
    if blockSize < POINTER_SIZE then POINTER_SIZE else blockSize
  }

  /** The distance between blocks: `(min + ALIGN - 1) & ~(ALIGN - 1)`. */
  function Stride(blockSize: nat): nat {
    BitAnd(Wrap(MinSize(blockSize) + (ALIGN - 1)), WORD - ALIGN)
  }

  /** What is asked of aligned_alloc. */
  function TotalBytes(blockSize: nat, blockCount: nat): nat {
    Wrap(Stride(blockSize) * blockCount)
  }

  lemma StrideRounds(blockSize: nat)
    ensures Stride(blockSize) ==
      var x := Wrap(MinSize(blockSize) + (ALIGN - 1)); x - x % ALIGN
  {
    Pow2Of64();
    assert Pow2(4) == 16;
    HighMaskRoundsDown(Wrap(MinSize(blockSize) + (ALIGN - 1)), 4, 64);
  }

  /** The stride is the least multiple of the alignment that holds a block and a pointer. */
  lemma StrideIsLeast(blockSize: nat)
    requires MinSize(blockSize) + ALIGN <= WORD
    ensures var s := Stride(blockSize);
      && s % ALIGN == 0 && s >= blockSize && s >= POINTER_SIZE
      && forall t: nat :: t % ALIGN == 0 && t >= blockSize && t >= POINTER_SIZE ==> s <= t
  {
    StrideRounds(blockSize);
    var min := MinSize(blockSize);
    var x := min + (ALIGN - 1);
    assert Wrap(x) == x;
    RoundsUp(min, x - x % ALIGN);
  }

  lemma RoundsUp(min: nat, s: nat)
    requires s == min + (ALIGN - 1) - (min + (ALIGN - 1)) % ALIGN
    ensures s % ALIGN == 0 && s >= min && forall t: nat :: t % ALIGN == 0 && t >= min ==> s <= t
  {
    assert s == (min + (ALIGN - 1)) / ALIGN * ALIGN;
  }

  /** The pool's bytes are counted without wrapping. */
  predicate Fits(blockSize: nat, blockCount: nat) {
    MinSize(blockSize) + ALIGN <= WORD && Stride(blockSize) * blockCount < WORD
  }

  /** The address of block `i`. */
  function BlockAt(storage: nat, stride: nat, i: nat): nat { storage + i * stride }

  lemma BlocksApart(storage: nat, stride: nat, i: nat, j: nat)
    requires i < j
    ensures BlockAt(storage, stride, i) + stride <= BlockAt(storage, stride, j)
  {
    assert (i + 1) * stride <= j * stride;
  }

  /** The addresses of the blocks i, i + 1, ..., n - 1. */
  function BlocksFrom(storage: nat, stride: nat, i: nat, n: nat): set<nat>
    decreases n - i
  {
    if i >= n then {} else {BlockAt(storage, stride, i)} + BlocksFrom(storage, stride, i + 1, n)
  }

  /** They are n - i aligned addresses between block i and block n. */
  lemma {:induction false} BlocksFromSpread(storage: nat, stride: nat, i: nat, n: nat)
    requires i <= n && stride > 0 && storage % ALIGN == 0 && stride % ALIGN == 0
    ensures |BlocksFrom(storage, stride, i, n)| == n - i
    ensures forall p :: p in BlocksFrom(storage, stride, i, n) ==>
      p % ALIGN == 0 && BlockAt(storage, stride, i) <= p && p + stride <= BlockAt(storage, stride, n)
    decreases n - i
  {
    if i < n {
      BlocksFromSpread(storage, stride, i + 1, n);
      BlockAligned(storage, stride, i);
      BlocksApart(storage, stride, i, i + 1);
      BlocksApart(storage, stride, i, n);
    }
  }

  /** Block i comes right before the blocks after it, and its address does not wrap. */
  lemma BlockBefore(storage: nat, stride: nat, i: nat, n: nat, size: nat)
    requires i < n && stride > 0 && storage % ALIGN == 0 && stride % ALIGN == 0
    requires BlockAt(0, stride, n) == size && storage + size <= WORD
    ensures var b, rest := BlockAt(storage, stride, i), BlocksFrom(storage, stride, i + 1, n);
      && Wrap(b) == b && b % ALIGN == 0 && storage <= b && b + stride <= storage + size
      && (forall p :: p in rest ==> b + stride <= p)
      && BlocksFrom(storage, stride, i, n) == rest + {b}
  {
    BlocksFromSpread(storage, stride, i + 1, n);
    BlockAligned(storage, stride, i);
    BlocksApart(storage, stride, i, i + 1);
    BlockWithin(storage, stride, i, n, size);
  }

  lemma BlockWithin(storage: nat, stride: nat, i: nat, n: nat, size: nat)
    requires i < n && stride > 0 && BlockAt(0, stride, n) == size && storage + size <= WORD
    ensures var b := BlockAt(storage, stride, i);
      Wrap(b) == b && storage <= b && b + stride <= storage + size
  {
    BlocksApart(storage, stride, i, n);
    assert BlockAt(storage, stride, n) == storage + BlockAt(0, stride, n);
  }

  lemma BlockAligned(storage: nat, stride: nat, i: nat)
    requires storage % ALIGN == 0 && stride % ALIGN == 0
    ensures BlockAt(storage, stride, i) % ALIGN == 0
  {
    var b, s := storage / ALIGN, stride / ALIGN;
    assert i * stride == (i * s) * ALIGN;
    assert storage + i * stride == (b + i * s) * ALIGN;
  }

  /** All blocks lie within the bytes asked for exactly when the byte count did not wrap; the
      constructor does not check, but lays out no block when it wrapped to zero. */
  lemma BlocksFitIff(blockSize: nat, blockCount: nat)
    ensures var s, total := Stride(blockSize), TotalBytes(blockSize, blockCount);
      (forall i: nat :: i < blockCount ==> BlockAt(0, s, i) + s <= total) <==> s * blockCount < WORD
  {
    var s, total := Stride(blockSize), TotalBytes(blockSize, blockCount);
    if blockCount > 0 {
      LastBlock(s, blockCount);
      if s * blockCount < WORD {
        forall i: nat | i < blockCount ensures BlockAt(0, s, i) + s <= total {
          BlocksApart(0, s, i, blockCount);
        }
      } else {
        var last: nat := blockCount - 1;
        assert BlockAt(0, s, last) + s == s * blockCount > total;
      }
    } else {
      NoBlocks(s, blockCount);
    }
  }

  lemma NoBlocks(s: nat, n: nat)
    requires n == 0
    ensures s * n == 0
  {
  }

  lemma LastBlock(s: nat, n: nat)
    requires n > 0
    ensures BlockAt(0, s, n - 1) + s == s * n && BlockAt(0, s, n) == s * n
  {
  }

  lemma FittingPool(blockSize: nat, blockCount: nat)
    requires Fits(blockSize, blockCount)
    ensures var s := Stride(blockSize);
      s % ALIGN == 0 && s > 0 && BlockAt(0, s, blockCount) == TotalBytes(blockSize, blockCount)
  {
    StrideIsLeast(blockSize);
    BlockSum(Stride(blockSize), blockCount);
  }

  lemma BlockSum(s: nat, n: nat)
    ensures BlockAt(0, s, n) == s * n
  {
  }

  /** Whatever power of two from 16 on the block size is, a pool of 2^64 / size + 1 blocks
      asks for the bytes of one. */
  lemma WrappedPool(blockSize: nat)
    requires 0 < blockSize <= WORD - ALIGN && blockSize % ALIGN == 0 && WORD % blockSize == 0
    ensures Stride(blockSize) == blockSize && TotalBytes(blockSize, WORD / blockSize + 1) == blockSize
  {
    StrideRounds(blockSize);
    AlignedSum(blockSize);
    WrapsToOne(blockSize, WORD / blockSize);
  }

  lemma AlignedSum(x: nat)
    requires x % ALIGN == 0 && x + ALIGN <= WORD
    ensures Wrap(x + (ALIGN - 1)) == x + (ALIGN - 1) && (x + (ALIGN - 1)) % ALIGN == ALIGN - 1
  {
  }

  lemma WrapsToOne(b: nat, n: nat)
    requires b < WORD && 0 < b && n == WORD / b && WORD % b == 0
    ensures Wrap(b * (n + 1)) == b
  {
    assert b * n == WORD;
    assert b * (n + 1) == WORD + b;
  }

  lemma HeadIsMember(s: seq<nat>)
    ensures s == [] || s[0] in s
  {
  }

  lemma TailMembers(s: seq<nat>)
    requires s != [] && forall i, j :: 0 <= i < j < |s| ==> s[i] != s[j]
    ensures s == [s[0]] + s[1..]
    ensures forall p :: p in s[1..] <==> p in s && p != s[0]
  {
    assert s == [s[0]] + s[1..];
  }

  // ----- The pool -----

  class PoolAllocator {
    var storage: nat
    var freeHead: nat
    var stride: nat
    var blockCount: nat
    var memory: map<nat, nat>  // the word at the start of each block, by address

    ghost var Size: nat        // the bytes of the storage
    ghost var Blocks: set<nat> // the addresses of all blocks
    ghost var Free: seq<nat>   // the free ones, in list order
    ghost var Live: set<nat>   // the ones clients hold

    /** The k-th pointer of the free list; null at its end. */
    ghost function Link(k: nat): nat
      reads this`Free
    {
      if k < |Free| then Free[k] else 0
    }

    /** Blocks are aligned, lie inside the storage, and share no byte. */
    ghost predicate BlocksSound()
      reads this`storage, this`stride, this`Size, this`Blocks
    {
      && (forall p :: p in Blocks ==> p > 0 && p % ALIGN == 0 && storage <= p && p + stride <= storage + Size)
      && (forall p, q :: p in Blocks && q in Blocks && p < q ==> p + stride <= q)
    }

    /** Every block is either live or on the free list, once, and the list is threaded
        through the free blocks themselves. */
    ghost predicate ListSound()
      reads this`freeHead, this`memory, this`Blocks, this`Free, this`Live
    {
      && (forall p :: p in Free ==> p in Blocks && p != 0)
      && (forall i, j :: 0 <= i < j < |Free| ==> Free[i] != Free[j])
      && (forall p :: p in Live <==> p in Blocks && p !in Free)
      && freeHead == Link(0)
      && (forall k :: 0 <= k < |Free| ==> Free[k] in memory && memory[Free[k]] == Link(k + 1))
    }

    ghost predicate Valid()
      reads this
    {
      BlocksSound() && ListSound()
    }

    /** The free list runs through the blocks from number `i` on by address. */
    ghost predicate InOrder(start: nat, i: nat)
      reads this`Free, this`stride
    {
      forall k :: 0 <= k < |Free| ==> Free[k] == BlockAt(start, stride, i + k)
    }

    /** The pointer reached by following the free list for k steps. */
    ghost function Follow(k: nat): Option<nat>
      reads this
    {
      if k == 0 then Some(freeHead)
      else
        match Follow(k - 1)
        case None => None
        case Some(p) => if p != 0 && p in memory then Some(memory[p]) else None
    }

    /** Following the list from its head meets every free block once and then null: it has
        no cycle. */
    lemma {:induction false} ListIsAcyclic(k: nat)
      requires Valid() && k <= |Free|
      ensures Follow(k) == Some(Link(k))
      ensures Link(k) == 0 <==> k == |Free|
      ensures forall j :: 0 <= j < k < |Free| ==> Link(j) != Link(k)
    {
      if k > 0 {
        ListIsAcyclic(k - 1);
        assert Free[k - 1] in Free;
      }
      if k < |Free| { assert Free[k] in Free; }
    }

    /** `alloc` is what aligned_alloc returned: null or an aligned block of the size asked
        for.  A pool whose size wraps is built all the same; see `BlocksFitIff`. */
    constructor (blockSize: nat, blockCount: nat, alloc: nat)
      requires blockSize < WORD && blockCount < WORD
      requires alloc != 0 ==> alloc % ALIGN == 0 && alloc + TotalBytes(blockSize, blockCount) <= WORD
      ensures Fits(blockSize, blockCount) ==>
        && Valid() && Live == {}
        && stride == Stride(blockSize)
        && InOrder(alloc, 0)
        && Blocks == BlocksFrom(alloc, stride, 0,
                                if TotalBytes(blockSize, blockCount) == 0 || alloc == 0 then 0 else blockCount)
      ensures TotalBytes(blockSize, blockCount) == 0 || alloc == 0 ==> Valid() && Blocks == {}
    {
      this.blockCount := blockCount;
      stride := Stride(blockSize);
      storage, freeHead, memory := 0, 0, map[];
      Size, Blocks, Free, Live := 0, {}, [], {};
      new;
      var total := TotalBytes(blockSize, blockCount);
      if total == 0 {
        return;
      }
      storage := alloc;
      if storage == 0 {
        this.blockCount := 0;
        return;
      }
      Size := total;
      if Fits(blockSize, blockCount) { FittingPool(blockSize, blockCount); }
      BuildList(Fits(blockSize, blockCount));
    }

    /** Links the blocks, the last one first. */
    method BuildList(ghost fits: bool)
      requires freeHead == 0 && Free == [] && Live == {} && Blocks == {}
      requires fits ==>
        && storage > 0 && storage % ALIGN == 0 && stride % ALIGN == 0 && stride > 0
        && BlockAt(0, stride, blockCount) == Size && storage + Size <= WORD
      modifies this`memory, this`freeHead, this`Free, this`Blocks
      ensures fits ==> Valid() && Live == {} && Blocks == BlocksFrom(storage, stride, 0, blockCount)
      ensures fits ==> InOrder(storage, 0)
    {
      ghost var start, step, size := storage, stride, Size;
      var n := blockCount;
      for i := n downto 0
        invariant storage == start && stride == step && Size == size
        invariant fits ==> Valid() && Live == {} && Blocks == BlocksFrom(start, step, i, n)
        invariant fits ==> InOrder(start, i)
      {
        ThreadNth(i, n, fits);
      }
    }

    /** One turn of the loop. */
    method ThreadNth(i: nat, ghost n: nat, ghost fits: bool)
      requires i < n
      requires fits ==>
        && Valid() && Live == {} && Blocks == BlocksFrom(storage, stride, i + 1, n)
        && storage > 0 && storage % ALIGN == 0 && stride % ALIGN == 0 && stride > 0
        && BlockAt(0, stride, n) == Size && storage + Size <= WORD
      modifies this`memory, this`freeHead, this`Free, this`Blocks
      ensures fits ==> Valid() && Blocks == BlocksFrom(storage, stride, i, n)
      ensures fits && old(InOrder(storage, i + 1)) ==> InOrder(storage, i)
    {
      if fits { BlockBefore(storage, stride, i, n, Size); }
      Thread(Wrap(BlockAt(storage, stride, i)), fits);
    }

    /** Puts a new block in front of the list. */
    method Thread(block: nat, ghost fits: bool)
      requires fits ==> Valid() && Live == {}
      requires fits ==> block > 0 && block % ALIGN == 0 && storage <= block && block + stride <= storage + Size
      requires fits ==> forall p :: p in Blocks ==> block + stride <= p
      requires fits ==> stride > 0
      modifies this`memory, this`freeHead, this`Free, this`Blocks
      ensures Blocks == old(Blocks) + {block} && Free == [block] + old(Free)
      ensures fits ==> Valid()
    {
      memory := memory[block := freeHead];
      freeHead := block;
      Free := [block] + Free;
      Blocks := Blocks + {block};
    }

    method Allocate() returns (block: nat)
      requires Valid()
      modifies this`freeHead, this`Free, this`Live
      ensures Valid()
      // null exactly when all blocks are live
      ensures block == 0 <==> old(Live) == Blocks
      ensures block == 0 ==> Free == old(Free) && Live == old(Live)
      ensures block != 0 ==>
        block in Blocks - old(Live) && Live == old(Live) + {block} && [block] + Free == old(Free)
    {
      if freeHead == 0 {
        EmptyList();
        return 0;
      }
      block := freeHead;
      TailMembers(Free);
      freeHead := memory[block];
      Live := Live + {block};
      Free := Free[1..];
    }

    /** A null head means that every block is live. */
    lemma EmptyList()
      requires Valid() && freeHead == 0
      ensures Free == [] && Live == Blocks
    {
      HeadIsMember(Free);
    }

    method Deallocate(p: nat)
      requires Valid()
      requires p != 0 ==> p in Live
      modifies this`memory, this`freeHead, this`Free, this`Live
      ensures Valid()
      ensures p == 0 ==> Free == old(Free) && Live == old(Live)
      ensures p != 0 ==> Live == old(Live) - {p} && Free == [p] + old(Free)
    {
      if p == 0 {
        return;
      }
      memory := memory[p := freeHead];
      freeHead := p;
      Free, Live := [p] + Free, Live - {p};
    }

    /** What a client may do with a block it holds: overwrite the pool's link in it. */
    method ClientWrite(p: nat, word: nat)
      requires Valid() && p in Live
      modifies this`memory
      ensures Valid()
    {
      memory := memory[p := word];
    }
  }
}
