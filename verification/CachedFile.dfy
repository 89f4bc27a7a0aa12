/** dfs_read and dfs_write with all their blocks in the buffer cache. */
module CachedFile {
  import opened Arith
  import opened Basics
  import opened BlockTree
  import opened PointerPage
  import opened BufferCache
  import opened HeldBuffers
  import opened BlockDirectory
  import opened CachedTree
  import opened FileIO
  import Allocator
  import CacheRuns
  import Links

  // ------------------------------------------------------ the locks left behind

  /** The locks left behind by appends, one after the other, up to n blocks. */
  function LocksAfter(B: nat, blocks: nat, depth: nat, n: nat): nat
    requires B > 0 && blocks <= n
    decreases n - blocks
  {
    if blocks == n then 0
    else var deep := NextDepth(B, blocks, depth);
         LocksLeft(blocks, B, deep) + LocksAfter(B, blocks + 1, deep, n)
  }

  /** Appending block k adds a page below another page. */
  ghost predicate Leaves(B: nat, blocks: nat, depth: nat, k: nat)
    requires B > 0 && blocks <= k
  {
    DepthAfter(B, blocks, depth, k + 1) >= 2 && PageSlot(k, B) == 0
  }

  lemma {:induction false} LocksAfterZero(B: nat, blocks: nat, depth: nat, n: nat)
    requires B > 0 && blocks <= n
    ensures LocksAfter(B, blocks, depth, n) == 0 <==> forall k :: blocks <= k < n ==> !Leaves(B, blocks, depth, k)
    decreases n - blocks
  {
    hide PageSlot, LocksLeft, NextDepth;
    if blocks < n {
      var next, deep := blocks + 1, NextDepth(B, blocks, depth);
      LocksLeftZero(blocks, B, deep);
      LocksAfterZero(B, next, deep, n);
      assert DepthAfter(B, next, deep, next) == deep;
      assert Leaves(B, blocks, depth, blocks) <==> LocksLeft(blocks, B, deep) > 0;
      forall k | next <= k < n ensures Leaves(B, blocks, depth, k) <==> Leaves(B, next, deep, k) {}
    }
  }

  /** No append on the way to n blocks adds a page below another page. */
  ghost predicate LeavesNone(B: nat, blocks: nat, depth: nat, n: nat) {
    B > 0 && blocks <= n && forall k :: blocks <= k < n ==> !Leaves(B, blocks, depth, k)
  }

  lemma {:induction false} DepthNext(B: nat, blocks: nat, depth: nat, n: nat)
    requires blocks <= n
    ensures DepthAfter(B, blocks, depth, n + 1) == NextDepth(B, n, DepthAfter(B, blocks, depth, n))
    decreases n - blocks
  {
    hide NextDepth;
    if blocks < n {
      DepthNext(B, blocks + 1, NextDepth(B, blocks, depth), n);
    } else {
      assert DepthAfter(B, n + 1, NextDepth(B, n, depth), n + 1) == NextDepth(B, n, depth);
    }
  }

  lemma {:induction false} DepthFromEmpty(B: nat, n: nat)
    requires B > 1 && n <= ROOTS * B
    ensures DepthAfter(B, 0, 0, n) == if n <= ROOTS then 0 else 1
  {
    if n > 0 {
      DepthFromEmpty(B, n - 1);
      DepthNext(B, 0, 0, n - 1);
      assert Pow(B, 0) == 1 && Pow(B, 1) == B;
    }
  }

  /** A file written from empty leaves a lock behind as soon as it needs more than
      16 full leaf pages. */
  lemma FirstLockLeft(B: nat, n: nat)
    requires B > 1
    ensures LeavesNone(B, 0, 0, n) <==> n <= ROOTS * B
  {
    hide DepthAfter;
    var full := ROOTS * B;
    forall k | 0 <= k < n && k < full ensures !Leaves(B, 0, 0, k) { DepthFromEmpty(B, k + 1); }
    DepthFromEmpty(B, full);
    DepthNext(B, 0, 0, full);
    assert Pow(B, 1) == B;
    assert PageSlot(full, B) == 0 by { DivModUnique(full, ROOTS, 0, B); }
    assert Leaves(B, 0, 0, full);
  }

  // -------------------------------------------------------------- single blocks

  /** get_buffer, or alloc_buffer for a whole block, then change the data, mark the
      buffer updated and release it. */
  method ChangeBlock(pool: BufferPool, b: nat, start: nat, chunk: seq<byte>, ghost store: map<nat, Block>,
                     ghost kept: set<nat>)
    returns (ok: bool)
    requires pool.Valid() && Settled(pool.State(), store, kept) && b in store && |store[b]| == pool.size
    requires start + |chunk| <= pool.size
    modifies pool
    ensures pool.Valid() && |pool.bufs| == |old(pool.bufs)|
    ensures !ok ==> AllHeld(pool.State()) && |pool.bufs| <= old(LockSum(pool.bufs))
    ensures ok ==> Settled(pool.State(), store[b := Patched(store[b], start, chunk)], kept)
    ensures ok ==> LockSum(pool.bufs) == old(LockSum(pool.bufs))
  {
    hide Ok, Mirrors, Settled, Marked, Patched, LockSum, ZeroBytes;
    var whole := |chunk| == pool.size;
    var i := Take(pool, b, whole, store, kept);
    if i.None? {
      return false;
    }
    ghost var got := if whole then store[b := ZeroBytes(pool.size)] else store;
    var was := pool.bufs[i.value].data;
    PatchedSize(was, start, chunk);
    WholeOrPart(store[b], was, start, chunk);
    Put(pool, i.value, Patched(was, start, chunk), got, kept);
    assert got[b := Patched(was, start, chunk)] == store[b := Patched(store[b], start, chunk)];
    LetGo(pool, i.value, store[b := Patched(store[b], start, chunk)], kept);
    return true;
  }

  // -------------------------------------------------------------------- reading

  /** The file is in order and the cache has its volume's blocks. */
  ghost predicate Ready(f: File, pool: BufferPool, kept: set<nat>)
    reads f, f.inode, f.inode.vol, f.inode.vol.fs, pool
  {
    f.Valid() && pool.Valid() && pool.size == f.BlockSize() && Settled(pool.State(), f.inode.vol.store, kept)
  }

  /** One iteration of dfs_read. */
  method ReadChunk(f: File, pool: BufferPool, left: nat, ghost kept: set<nat>) returns (chunk: Option<seq<byte>>)
    requires Ready(f, pool, kept) && f.pos < f.size && left > 0
    modifies pool
    ensures pool.Valid() && |pool.bufs| == |old(pool.bufs)|
    ensures chunk.None? ==> AllHeld(pool.State()) && |pool.bufs| <= old(LockSum(pool.bufs))
    ensures chunk.Some? ==> Ready(f, pool, kept) && LockSum(pool.bufs) == old(LockSum(pool.bufs))
    ensures chunk.Some? ==> 0 < |chunk.value| <= left && f.pos + |chunk.value| <= f.size
    ensures chunk.Some? ==> chunk.value == f.Content()[f.pos..f.pos + |chunk.value|]
  {
    hide WellFormed, Pow, CeilDiv, Settled, LockSum, Ok, Linked, Up;
    var bs := f.BlockSize();
    BlocksCover(f.pos, f.size, bs);
    WellFormedFacts(f.inode.State(), f.inode.depth, f.inode.blocks);
    DataBlocks(f.inode.State());
    var iblock, start := f.pos / bs, f.pos % bs;
    var count := Min(Min(bs - start, left), f.size - f.pos);
    var blk, full := Lookup(f.inode, pool, iblock, kept);
    if full {
      return None;
    }
    var buf := ReadBlock(pool, blk.value, f.inode.vol.store, kept);
    if buf.None? {
      return None;
    }
    ghost var bytes := buf.value[start..start + count];
    forall k | 0 <= k < count ensures bytes[k] == f.Content()[f.pos + k] {
      ByteInBlock(f.pos + k, f.pos, bs, count);
    }
    return Some(buf.value[start..start + count]);
  }

  /** dfs_read through the cache: the file's bytes, unless every buffer is locked. */
  method Read(f: File, pool: BufferPool, n: nat, ghost kept: set<nat>) returns (data: Option<seq<byte>>)
    requires Ready(f, pool, kept)
    modifies f`pos, pool
    ensures pool.Valid() && |pool.bufs| == |old(pool.bufs)|
    ensures data.None? ==> AllHeld(pool.State()) && |pool.bufs| <= old(LockSum(pool.bufs))
    ensures data.Some? ==> Ready(f, pool, kept) && LockSum(pool.bufs) == old(LockSum(pool.bufs))
    ensures data.Some? ==> data.value == f.Content()[old(f.pos)..Min(old(f.pos) + n, f.size)]
    ensures data.Some? ==> f.pos == old(f.pos) + |data.value|
  {
    hide WellFormed, Pow, CeilDiv, ContentOf, Settled, LockSum, Ok, Linked;
    var bytes: seq<byte>, left := [], n;
    while f.pos < f.size && left > 0
      invariant Ready(f, pool, kept) && |pool.bufs| == |old(pool.bufs)| && LockSum(pool.bufs) == old(LockSum(pool.bufs))
      invariant left >= 0 && |bytes| + left == n
      invariant f.pos == old(f.pos) + |bytes| && bytes == f.Content()[old(f.pos)..f.pos]
    {
      var chunk := ReadChunk(f, pool, left, kept);
      if chunk.None? {
        return None;
      }
      bytes := bytes + chunk.value;
      f.pos := f.pos + |chunk.value|;
      left := left - |chunk.value|;
    }
    assert f.pos == Min(old(f.pos) + n, f.size);
    return Some(bytes);
  }

  // -------------------------------------------------------------------- writing

  /** The block to write to: an existing one, or a new one at the end. */
  method BlockFor(f: File, pool: BufferPool, iblock: nat, ghost kept: set<nat>)
    returns (r: Outcome, ghost log: seq<Search>)
    requires f.inode.Valid() && iblock <= f.inode.blocks && f.size <= f.inode.blocks * f.BlockSize()
    requires pool.Valid() && pool.size == f.BlockSize() && Settled(pool.State(), f.inode.vol.store, kept)
    modifies f.inode, f.inode.vol, f.inode.vol.fs`blocks, pool
    ensures pool.Valid() && |pool.bufs| == |old(pool.bufs)|
    ensures (r.Stray? <==> !Unmisled(log)) && (old(f.inode.vol.IsSteady()) ==> f.inode.vol.IsSteady() && !r.Stray?)
    ensures iblock < old(f.inode.blocks) ==> (r.Done? || r.NoBuffer?) && log == []
    ensures r.DiskFull? ==> Allocator.Exhausted(f.inode.vol.fs.blocks)
    ensures r.Done? ==> f.inode.Valid() && iblock < f.inode.blocks && |f.inode.layers| > 0
                        && iblock < |f.inode.layers[0]| && r.value == f.inode.layers[0][iblock]
    ensures r.Done? ==> f.Content() == old(f.Content()) && Extends(f.inode.layers, old(f.inode.layers))
    ensures r.Done? ==> Settled(pool.State(), f.inode.vol.store, kept + Upper(f.inode.layers))
    ensures r.Done? ==> OneMore(f, iblock, old(f.inode.blocks), old(f.inode.depth))
    ensures var left := old(LockSum(pool.bufs)) +
                        LocksFor(f.inode.B(), iblock, old(f.inode.blocks), old(f.inode.depth));
            && (r.Done? ==> LockSum(pool.bufs) == left)
            && (r.NoBuffer? ==> AllHeld(pool.State()) && |pool.bufs| <= left)
  {
    hide Linked, WellFormed, Pow, Appended, Settled, LockSum, Ok, Unmisled, LocksLeft, NextDepth, Allocator.Aligned,
         Allocator.Exhausted;
    ghost var t0 := f.inode.State();
    WellFormedFacts(t0, f.inode.depth, f.inode.blocks);
    DataBlocks(t0);
    if iblock < f.inode.blocks {
      NoSearch();
      log := [];
      var blk, full := Lookup(f.inode, pool, iblock, kept);
      r := if full then NoBuffer else Done(blk.value);
      if !full { KeepMore(pool.State(), t0.store, kept, kept + Upper(f.inode.layers)); }
    } else {
      r, log := ExpandInode(f.inode, pool, kept);
      if r.Done? {
        AppendedFacts(t0, f.inode.State(), f.inode.depth, f.inode.blocks, r.value);
        ExpandedContent(t0, f.inode.State(), f.inode.depth, f.inode.blocks, r.value, f.BlockSize(), f.size);
        WellFormedFacts(f.inode.State(), f.inode.depth, f.inode.blocks);
      }
    }
  }

  ghost predicate OneMore(f: File, iblock: nat, blocks: nat, depth: nat)
    reads f, f.inode
  {
    && f.inode.blocks == (if iblock < blocks then blocks else blocks + 1)
    && f.inode.depth == if iblock < blocks then depth else NextDepth(f.inode.B(), blocks, depth)
  }

  /** The locks left behind by having block iblock. */
  function LocksFor(B: nat, iblock: nat, blocks: nat, depth: nat): nat
    requires B > 0
  {
    if iblock < blocks then 0 else LocksLeft(blocks, B, NextDepth(B, blocks, depth))
  }

  /** Copy the chunk into its block, in the store and in the cache. */
  method PatchBlock(f: File, pool: BufferPool, iblock: nat, blk: nat, start: nat, chunk: seq<byte>,
                    ghost kept: set<nat>)
    returns (ok: bool)
    requires f.inode.Valid() && f.pos <= f.size && 0 < |chunk| && start + |chunk| <= f.BlockSize()
    requires iblock == f.pos / f.BlockSize() < f.inode.blocks && start == f.pos % f.BlockSize()
    requires |f.inode.layers| > 0 && iblock < |f.inode.layers[0]| && blk == f.inode.layers[0][iblock]
    requires pool.Valid() && pool.size == f.BlockSize() && Settled(pool.State(), f.inode.vol.store, kept)
    modifies f, f.inode.vol, pool
    ensures pool.Valid() && |pool.bufs| == |old(pool.bufs)|
    ensures !ok ==> AllHeld(pool.State()) && |pool.bufs| <= old(LockSum(pool.bufs))
    ensures ok ==> LockSum(pool.bufs) == old(LockSum(pool.bufs)) && Settled(pool.State(), f.inode.vol.store, kept)
    ensures f.inode.vol.free == old(f.inode.vol.free)
    ensures ok ==> f.inode.Valid() && f.pos == old(f.pos) + |chunk|
    ensures ok ==> f.size == if old(f.pos) + |chunk| > old(f.size) then old(f.pos) + |chunk| else old(f.size)
    ensures ok ==> f.Content() == Splice(old(f.Content()), old(f.pos), chunk)
  {
    hide Within, Linked, WellFormed, Sound, Pow, ContentOf, Splice, Settled, LockSum, Ok, Patched, FileBlocks;
    WellFormedFacts(f.inode.State(), f.inode.depth, f.inode.blocks);
    DataBlocks(f.inode.State());
    BlockHasSize(f.inode.vol.store, f.inode.Blocks(), f.BlockSize(), iblock);
    ok := ChangeBlock(pool, blk, start, chunk, f.inode.vol.store, kept);
    if ok {
      f.PatchBlock(iblock, blk, start, chunk);
    }
  }

  /** The block of the file that holds a position. */
  function BlockAt(pos: nat, bs: nat): nat
    requires bs > 0
  {
    pos / bs
  }

  /** One iteration of dfs_write. */
  method WriteChunk(f: File, pool: BufferPool, chunk: seq<byte>, ghost kept: set<nat>)
    returns (r: Outcome, ghost log: seq<Search>)
    requires Ready(f, pool, kept) && 0 < |chunk| && f.pos % f.BlockSize() + |chunk| <= f.BlockSize()
    modifies f, f.inode, f.inode.vol, f.inode.vol.fs`blocks, pool
    ensures pool.Valid() && |pool.bufs| == |old(pool.bufs)|
    ensures (r.Stray? <==> !Unmisled(log)) && (old(f.inode.vol.IsSteady()) ==> f.inode.vol.IsSteady() && !r.Stray?)
    ensures BlockAt(old(f.pos), f.BlockSize()) < old(f.inode.blocks) ==> (r.Done? || r.NoBuffer?) && log == []
    ensures r.DiskFull? ==> Allocator.Exhausted(f.inode.vol.fs.blocks)
    ensures r.Done? ==> r.value == |chunk| && Ready(f, pool, kept + Upper(f.inode.layers))
    ensures r.Done? ==> f.pos == old(f.pos) + |chunk| && Extends(f.inode.layers, old(f.inode.layers))
    ensures r.Done? ==> f.size == if old(f.pos) + |chunk| > old(f.size) then old(f.pos) + |chunk| else old(f.size)
    ensures r.Done? ==> f.Content() == Splice(old(f.Content()), old(f.pos), chunk)
    ensures r.Done? ==> OneMore(f, BlockAt(old(f.pos), f.BlockSize()), old(f.inode.blocks), old(f.inode.depth))
    ensures var left := old(LockSum(pool.bufs)) + LocksFor(f.inode.B(), BlockAt(old(f.pos), f.BlockSize()),
                                                           old(f.inode.blocks), old(f.inode.depth));
            && (r.Done? ==> LockSum(pool.bufs) == left)
            && (r.NoBuffer? ==> AllHeld(pool.State()) && |pool.bufs| <= left)
  {
    hide Within, Linked, WellFormed, Pow, CeilDiv, ContentOf, Splice, Settled, LockSum, Ok, Unmisled, LocksFor,
         Allocator.Aligned, Allocator.Exhausted;
    var bs := f.BlockSize();
    BlocksCover(f.pos, f.size, bs);
    BlocksAfter(f.pos, f.size, |chunk|, bs);
    var iblock := BlockAt(f.pos, bs);
    r, log := BlockFor(f, pool, iblock, kept);
    if !r.Done? {
      return;
    }
    var ok := PatchBlock(f, pool, iblock, r.value, f.pos % bs, chunk, kept + Upper(f.inode.layers));
    if !ok {
      return NoBuffer, log;
    }
    return Done(|chunk|), log;
  }

  /** dfs_write with its blocks in the cache: the file, the store and the cache's
      content change together. The buffers left locked are of directory pages above
      the leaf pages, and there are as many locks more as pages were added below
      others. */
  method Write(f: File, pool: BufferPool, data: seq<byte>, ghost kept: set<nat>)
    returns (r: Outcome, ghost log: seq<Search>)
    requires Ready(f, pool, kept)
    modifies f, f.inode, f.inode.vol, f.inode.vol.fs`blocks, pool
    ensures pool.Valid() && |pool.bufs| == |old(pool.bufs)|
    ensures (r.Stray? <==> !Unmisled(log)) && (old(f.inode.vol.IsSteady()) ==> f.inode.vol.IsSteady() && !r.Stray?)
    ensures r.DiskFull? ==> Allocator.Exhausted(f.inode.vol.fs.blocks)
    ensures r.Done? ==> r.value == |data| && Ready(f, pool, kept + Upper(f.inode.layers))
    ensures r.Done? ==> f.Content() == Splice(old(f.Content()), old(f.pos), data)
    ensures r.Done? ==> f.pos == old(f.pos) + |data|
    ensures old(f.inode.blocks) <= old(f.BlocksUpTo(f.pos + |data|))
    ensures r.Done? ==> f.inode.blocks == old(f.BlocksUpTo(f.pos + |data|))
    ensures var left := old(LockSum(pool.bufs)) + LocksAfter(f.inode.B(), old(f.inode.blocks), old(f.inode.depth),
                                                             old(f.BlocksUpTo(f.pos + |data|)));
            && (r.Done? ==> LockSum(pool.bufs) == left)
            && (r.NoBuffer? ==> AllHeld(pool.State()) && |pool.bufs| <= left)
  {
    hide Linked, WellFormed, Pow, CeilDiv, ContentOf, Splice, Settled, LockSum, Ok, Unmisled, Upper, LocksLeft,
         NextDepth, Allocator.Aligned, Allocator.Exhausted;
    ghost var c0, p0, B := f.Content(), f.pos, f.inode.B();
    var bs, written := f.BlockSize(), 0;
    ghost var n := f.BlocksUpTo(p0 + |data|);
    CeilMonotone(f.size, if p0 + |data| > f.size then p0 + |data| else f.size, bs);
    log := [];
    NoSearch();
    SpliceNothing(c0, p0);
    assert data[..0] == [];
    KeepMore(pool.State(), f.inode.vol.store, kept, kept + Upper(f.inode.layers));
    ghost var total := LocksAfter(B, f.inode.blocks, f.inode.depth, n);
    while written < |data|
      invariant 0 <= written <= |data| && p0 <= |c0| && |pool.bufs| == |old(pool.bufs)|
      invariant Ready(f, pool, kept + Upper(f.inode.layers))
      invariant Unmisled(log) && (old(f.inode.vol.IsSteady()) ==> f.inode.vol.IsSteady())
      invariant f.pos == p0 + written && f.Content() == Splice(c0, p0, data[..written])
      invariant f.inode.blocks <= n == f.BlocksUpTo(p0 + |data|)
      invariant LockSum(pool.bufs) + LocksAfter(B, f.inode.blocks, f.inode.depth, n) == old(LockSum(pool.bufs)) + total
    {
      var count := Min(bs - f.pos % bs, |data| - written);
      var chunk := data[written..written + count];
      ghost var more, lv := log, f.inode.layers;
      MoreBlocks(f.pos, f.size, count, p0 + |data|, bs);
      r, more := WriteChunk(f, pool, chunk, kept + Upper(lv));
      UnmisledBoth(log, more);
      log := log + more;
      if !r.Done? {
        return;
      }
      UpperGrows(lv, f.inode.layers);
      assert kept + Upper(lv) + Upper(f.inode.layers) == kept + Upper(f.inode.layers);
      CeilMonotone(f.size, if p0 + |data| > f.size then p0 + |data| else f.size, bs);
      SpliceTwice(c0, p0, data[..written], chunk);
      assert data[..written] + chunk == data[..written + count];
      written := written + count;
    }
    assert data[..written] == data;
    return Done(|data|), log;
  }

  // ------------------------------------------------------------- on the device

  /** A device as a block store. */
  ghost function Blocks(device: seq<Block>): map<nat, Block> {
    map b: nat | b < |device| :: device[b]
  }

  lemma DataNotUpper(t: Tree, i: nat)
    requires Sound(t) && i < |t.lv[0]|
    ensures t.lv[0][i] !in Upper(t.lv)
  {
    if t.lv[0][i] in Upper(t.lv) {
      OwnsMember(t.lv[2..], t.lv[0][i]);
    }
  }

  /** The file's bytes are the same in any store that has its data blocks. */
  lemma BytesOnDevice(t: Tree, device: seq<Block>, bs: nat, size: nat)
    requires Sound(t) && |t.lv| > 0
    requires forall b :: b in t.store ==> b < |device| && (b in Upper(t.lv) || device[b] == t.store[b])
    ensures ContentOf(Blocks(device), t.lv[0], bs, size) == ContentOf(t.store, t.lv[0], bs, size)
  {
    hide Upper, Sound, ContentOf;
    DataBlocks(t);
    forall i | 0 <= i < |t.lv[0]|
      ensures t.lv[0][i] in t.store && t.lv[0][i] in Blocks(device)
              && Blocks(device)[t.lv[0][i]] == t.store[t.lv[0][i]]
    {
      DataNotUpper(t, i);
    }
    SameBytes(t.store, Blocks(device), t.lv[0], bs, size);
  }

  /** The device has every block that no locked buffer caches, and only these blocks
      are cached by one. */
  ghost predicate SavedBut(c: Cache, store: map<nat, Block>, kept: set<nat>) {
    forall b :: b in store ==>
      && b < |c.device| && (CacheRuns.NotHeld(c, b) || b in kept)
      && (CacheRuns.NotHeld(c, b) ==> c.device[b] == store[b])
  }

  /** dfs_write and flush_buffers on a pool that nobody holds a buffer of: the device
      has all the file's bytes, and every block but directory pages above the leaf
      pages. Nobody holds a buffer afterwards, and the device has every block,
      exactly if no page was added below another. */
  method WriteAndFlush(f: File, pool: BufferPool, data: seq<byte>) returns (r: Outcome, ghost log: seq<Search>)
    requires Ready(f, pool, {})
    modifies f, f.inode, f.inode.vol, f.inode.vol.fs`blocks, pool
    ensures (r.Stray? <==> !Unmisled(log)) && (old(f.inode.vol.IsSteady()) ==> !r.Stray?)
    ensures r.DiskFull? ==> Allocator.Exhausted(f.inode.vol.fs.blocks)
    ensures old(f.inode.blocks) <= old(f.BlocksUpTo(f.pos + |data|))
    ensures var n := old(f.BlocksUpTo(f.pos + |data|));
            r.NoBuffer? ==> AllHeld(pool.State()) &&
                            |pool.bufs| <= LocksAfter(f.inode.B(), old(f.inode.blocks), old(f.inode.depth), n)
    ensures r.Done? ==> Ready(f, pool, Upper(f.inode.layers)) && f.pos == old(f.pos) + |data|
    ensures r.Done? ==> f.Content() == Splice(old(f.Content()), old(f.pos), data)
    ensures r.Done? ==> ContentOf(Blocks(pool.device), f.inode.Blocks(), f.BlockSize(), f.size) == f.Content()
    ensures r.Done? ==> SavedBut(pool.State(), f.inode.vol.store, Upper(f.inode.layers))
    ensures var n := old(f.BlocksUpTo(f.pos + |data|));
            r.Done? ==> (Quiet(pool.State()) <==>
                         LeavesNone(f.inode.B(), old(f.inode.blocks), old(f.inode.depth), n))
    ensures r.Done? && Quiet(pool.State()) ==> Blocks(pool.device) == f.inode.vol.store
  {
    hide Linked, WellFormed, Pow, CeilDiv, ContentOf, Splice, Settled, LockSum, Ok, Unmisled, Upper, LocksAfter,
         Mirrors, CacheRuns.Answers, CacheRuns.NotHeld, Allocator.Aligned, Allocator.Exhausted;
    ghost var blocks, depth, n := f.inode.blocks, f.inode.depth, f.BlocksUpTo(f.pos + |data|);
    NoLocks(pool.State(), f.inode.vol.store, {});
    r, log := Write(f, pool, data, {});
    if !r.Done? {
      return;
    }
    ghost var c, t := pool.State(), f.inode.State();
    LocksAfterZero(f.inode.B(), blocks, depth, n);
    assert {} + Upper(t.lv) == Upper(t.lv);
    var done := CacheRuns.Serve(pool, CacheRuns.Flush);
    ghost var c' := pool.State();
    FlushedBlocks(c, done, c', t.store, Upper(t.lv));
    NoLocks(c', t.store, Upper(t.lv));
    WellFormedFacts(t, f.inode.depth, f.inode.blocks);
    BytesOnDevice(t, pool.device, f.BlockSize(), f.size);
    if Quiet(c') { AllOnDevice(c', t.store, Upper(t.lv)); }
  }

  lemma NoLocks(c: Cache, store: map<nat, Block>, kept: set<nat>)
    requires Settled(c, store, kept)
    ensures Quiet(c) <==> LockSum(c.bufs) == 0
    ensures kept == {} ==> Quiet(c)
  {
    hide Mirrors, LockSum;
    QuietIsSettled(c, store, kept);
  }

  lemma AllOnDevice(c: Cache, store: map<nat, Block>, kept: set<nat>)
    requires Settled(c, store, kept) && Quiet(c)
    requires SavedBut(c, store, kept)
    ensures Blocks(c.device) == store
  {
    hide Logical;
    forall b | b in store ensures c.device[b] == store[b] {
      assert CacheRuns.NotHeld(c, b);
    }
  }

  /** A new cache over a device that has every block. */
  lemma FreshPool(c: Cache, device: seq<Block>, store: map<nat, Block>)
    requires Ok(c, Links.NIL) && c.device == device && Blocks(device) == store
    requires forall i :: 0 <= i < |c.bufs| ==> c.bufs[i].state.Free?
    requires forall b :: 0 <= b < |device| ==> Logical(c, Links.NIL, b) == device[b]
    ensures Settled(c, store, {}) && LockSum(c.bufs) == 0
  {
    hide Logical;
    forall i | 0 <= i < |c.bufs| ensures c.bufs[i].locks == 0 {
      assert PlacedAt(c, Links.NIL, i);
    }
    LockSumZero(c.bufs);
  }

  /** What was written and flushed is read back through a new cache over the same
      device, if the write left no buffer locked. */
  method WriteFlushRead(f: File, pool: BufferPool, data: seq<byte>, poolsize: nat)
    returns (r: Outcome, back: Option<seq<byte>>)
    requires Ready(f, pool, {}) && f.size < WORD && f.pos + |data| < WORD && poolsize > 0
    modifies f, f.inode, f.inode.vol, f.inode.vol.fs`blocks, pool
    ensures r.DiskFull? ==> Allocator.Exhausted(f.inode.vol.fs.blocks)
    ensures old(f.inode.vol.IsSteady()) ==> !r.Stray?
    ensures r.Done? ==> f.Content() == Splice(old(f.Content()), old(f.pos), data)
    ensures var n := old(f.BlocksUpTo(f.pos + |data|));
            r.Done? && LeavesNone(f.inode.B(), old(f.inode.blocks), old(f.inode.depth), n) ==> back == Some(data)
  {
    hide Linked, WellFormed, Pow, CeilDiv, ContentOf, Splice, Settled, LockSum, Ok, Unmisled, Upper, LeavesNone,
         Allocator.Aligned, Allocator.Exhausted;
    back := None;
    ghost var c0, log := f.Content(), [];
    var start := f.pos;
    r, log := WriteAndFlush(f, pool, data);
    if !r.Done? {
      return;
    }
    SpliceSlice(c0, start, data);
    DeviceSizes(pool);
    var again := new BufferPool(poolsize, pool.size, pool.device);
    var landed := f.Lseek(start, SeekSet);
    NoLocks(pool.State(), f.inode.vol.store, Upper(f.inode.layers));
    if LockSum(pool.bufs) == 0 {
      FreshPool(again.State(), pool.device, f.inode.vol.store);
      back := Read(f, again, |data|, {});
    }
  }

  lemma DeviceSizes(pool: BufferPool)
    requires pool.Valid()
    ensures forall b :: 0 <= b < |pool.device| ==> |pool.device[b]| == pool.size
  {}
}
