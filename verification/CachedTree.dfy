/** The block directory operations of an inode with their blocks in the buffer cache:
    every step of the tree goes with the gets, marks and releases of the source. */
module CachedTree {
  import opened Arith
  import opened Basics
  import opened BlockTree
  import opened PointerPage
  import opened BlockDirectory
  import opened BufferCache
  import opened HeldBuffers
  import Allocator

  /** How an operation ends: with a block, or the program stops because the disk is
      full or every buffer is locked. The model also stops at a stray search. */
  datatype Outcome = Done(value: nat) | DiskFull | Stray | NoBuffer

  // ------------------------------------------------------ the locks left behind

  /** The page of layer j on the path to block n has to be added: n is the first
      block below it. */
  predicate NewAt(n: nat, B: nat, j: nat)
    requires B > 0
  {
    j == 0 || (NewAt(n, B, j - 1) && PageSlot(Up(n, B, j - 1), B) == 0)
  }

  /** The pages that appending block n adds below another page. */
  function LocksLeft(n: nat, B: nat, depth: nat): nat
    requires B > 0
  {
    if depth < 2 then 0 else LocksLeft(n, B, depth - 1) + if NewAt(n, B, depth - 1) then 1 else 0
  }

  lemma {:induction false} NewAtIs(t: Tree, j: nat)
    requires t.B > 0 && j < |t.lv| && Tight(t.lv, t.B)
    ensures |t.lv[j]| <= Up(|t.lv[0]|, t.B, j) <==> NewAt(|t.lv[0]|, t.B, j)
  {
    if j > 0 {
      var n := |t.lv[0]|;
      NewAtIs(t, j - 1);
      NextInLayer(t.lv, t.B, j - 1);
      CeilDivStep(Up(n, t.B, j - 1), t.B);
    }
  }

  lemma {:induction false} LocksLeftZero(n: nat, B: nat, depth: nat)
    requires B > 0
    ensures LocksLeft(n, B, depth) == 0 <==> depth < 2 || PageSlot(n, B) != 0
  {
    if depth >= 2 {
      LocksLeftZero(n, B, depth - 1);
      NewAtFirst(n, B, depth - 1);
    }
  }

  lemma {:induction false} NewAtFirst(n: nat, B: nat, j: nat)
    requires B > 0 && j > 0
    ensures NewAt(n, B, j) ==> PageSlot(n, B) == 0
    ensures j == 1 && PageSlot(n, B) == 0 ==> NewAt(n, B, j)
  {
    UpZero(n, B);
    if j > 1 { NewAtFirst(n, B, j - 1); }
  }

  /** The pages above the leaf pages. */
  ghost function Upper(lv: Layers): set<nat> {
    if |lv| < 2 then {} else Owned(lv[2..])
  }

  lemma UpperHas(lv: Layers, h: nat, i: nat)
    requires 2 <= h < |lv| && i < |lv[h]|
    ensures lv[h][i] in Upper(lv)
  {
    assert lv[2..][h - 2] == lv[h];
    OwnedHas(lv[2..], h - 2, i);
  }

  lemma UpperGrows(lv: Layers, lv': Layers)
    requires Extends(lv', lv)
    ensures Upper(lv) <= Upper(lv')
  {
    forall b | b in Upper(lv) ensures b in Upper(lv') {
      OwnsMember(lv[2..], b);
      var h: nat, i: nat :| 2 <= h < |lv| && i < |lv[h]| && lv[h][i] == b;
      assert lv'[h][i] == b;
      UpperHas(lv', h, i);
    }
  }

  /** The tree has one level more over the same blocks. */
  ghost predicate DeeperBy(t0: Tree, t: Tree, depth0: nat, depth: nat) {
    && depth == depth0 + 1 && |t0.lv| > 0 && |t.lv| > 0 && t.lv[0] == t0.lv[0] && t.B == t0.B && t.count == t0.count
    && |t.free| + 1 == |t0.free| && t.free <= t0.free && Extends(t.lv, t0.lv)
    && Conserved(t, t0) && OnlyPagesChanged(t0.store, t.store, t.lv)
  }

  // -------------------------------------------------------------------- steps

  /** The new page that set_inode_block still holds, or no page. */
  ghost predicate InHand(c: Cache, store: map<nat, Block>, held: Option<nat>, page: nat, kept: set<nat>) {
    if held.None? then Settled(c, store, kept)
    else && Holding(c, store, held.value, kept) && c.bufs[held.value].blkno == page
         && page in store && store[page] == ZeroBytes(c.size)
  }

  lemma InHandMore(c: Cache, store: map<nat, Block>, held: Option<nat>, page: nat, kept: set<nat>, more: set<nat>)
    requires InHand(c, store, held, page, kept) && kept <= more
    ensures InHand(c, store, held, page, more)
  {
    hide Settled, Holding;
    if held.Some? { HoldMore(c, store, held.value, kept, more); } else { KeepMore(c, store, kept, more); }
  }

  function Owed(held: Option<nat>): nat {
    if held.Some? then 1 else 0
  }

  /** What adding an entry does to the store. */
  lemma EntryStore(t: Tree, t': Tree, j: nat, p: nat, c: nat, b: nat)
    requires EntryAdded(t, t', j, p, c, b)
    ensures p in t.store && b in t.store && b < WORD && 4 * c + 4 <= |t.store[p]| == 4 * t.B
    ensures |SetPtr(t.store[p], c, b)| == 4 * t.B
    ensures var s := t.store[p := SetPtr(t.store[p], c, b)];
            t'.store == if j > 0 then s[b := ZeroBytes(4 * t.B)] else s
    ensures Extends(t'.lv, t.lv)
  {
    hide SetPtr, ZeroBytes;
    PtrsSet(t.store[p], c, b);
  }

  lemma RootStore(t: Tree, t': Tree, b: nat)
    requires RootAdded(t, t', b) && |t.lv| > 1
    ensures b in t.store && t'.store == t.store[b := ZeroBytes(4 * t.B)]
  {
    hide ZeroBytes;
  }

  lemma ZeroEntry(B: nat, c: nat)
    requires c < B
    ensures Ptr(ZeroBytes(4 * B), c) == 0
  {}

  /** What the program reads from a page on the path, and where. */
  lemma ReadOnPath(t: Tree, t0: Tree, h: nat, page: nat, offset: nat)
    requires OnPath(t, t0, h, page) && 1 <= h && offset == PageSlot(Up(|t0.lv[0]|, t.B, h - 1), t.B)
    ensures |t.lv| == |t0.lv| && page in t.store && |t.store[page]| == 4 * t.B && 4 * offset + 4 <= 4 * t.B
    ensures Ptr(t.store[page], offset) == 0 <==> |t.lv[h - 1]| <= Up(|t0.lv[0]|, t.B, h - 1)
    ensures Ptr(t.store[page], offset) == 0 <==> NewAt(|t0.lv[0]|, t.B, h - 1)
  {
    hide Growing, Sound, Up, Tight, Ptr, PageSlot, NewAt;
    GrowingFacts(t, t0, h);
    EntryOnPath(t, |t0.lv[0]|, h);
    NewAtIs(t0, h - 1);
  }

  /** get_inode_block: one get and release for each level. */
  method Lookup(inode: Inode, pool: BufferPool, iblock: nat, ghost kept: set<nat>)
    returns (r: Option<nat>, full: bool)
    requires inode.Valid() && pool.Valid() && Settled(pool.State(), inode.vol.store, kept)
    requires iblock < inode.blocks ||
             (if inode.depth == 0 then iblock < ROOTS
              else Up(iblock, inode.B(), inode.depth) < |inode.layers[inode.depth]|)
    modifies pool
    ensures pool.Valid() && |pool.bufs| == |old(pool.bufs)|
    ensures full ==> AllHeld(pool.State()) && |pool.bufs| <= old(LockSum(pool.bufs))
    ensures !full ==> Settled(pool.State(), inode.vol.store, kept) && LockSum(pool.bufs) == old(LockSum(pool.bufs))
    ensures !full && iblock < inode.blocks ==> r == Some(inode.Blocks()[iblock])
    ensures !full && iblock >= inode.blocks ==> r == if inode.depth == 0 then Some(0) else None
  {
    hide Sound, Up, Pow, FromDigits, Linked, Tight, Settled, LockSum, Ok, Ptr;
    SoundFacts(inode.State());
    var offsets := inode.SplitLevels(iblock);
    UpZero(iblock, inode.B());
    if iblock < inode.blocks { UpInLayer(inode.layers, inode.B(), iblock, inode.depth); }
    RootOnPath(inode.State(), offsets[0]);
    var block := inode.blockdir[offsets[0]];
    var d := 1;
    while d <= inode.depth
      invariant 1 <= d <= inode.depth + 1 && pool.Valid() && |pool.bufs| == |old(pool.bufs)|
      invariant Settled(pool.State(), inode.vol.store, kept) && LockSum(pool.bufs) == old(LockSum(pool.bufs))
      invariant var h := inode.depth - d + 1;
                inode.depth > 0 ==> Up(iblock, inode.B(), h) < |inode.layers[h]|
                                    && block == inode.layers[h][Up(iblock, inode.B(), h)]
      invariant inode.depth == 0 ==> block == Slot(inode.layers[0], iblock)
    {
      ghost var h := inode.depth - d + 1;
      EntryOnPath(inode.State(), iblock, h);
      if iblock < inode.blocks { UpInLayer(inode.layers, inode.B(), iblock, h - 1); }
      var data := ReadBlock(pool, block, inode.vol.store, kept);
      if data.None? {
        return None, true;
      }
      block := Ptr(data.value, offsets[d]);
      if block == 0 {
        return None, false;
      }
      d := d + 1;
    }
    return Some(block), false;
  }

  /** The root entry on the path; a new page stays in hand. */
  method RootPage(inode: Inode, pool: BufferPool, ghost t0: Tree, offset: nat, ghost kept: set<nat>)
    returns (r: Outcome, held: Option<nat>, ghost log: seq<Search>)
    requires |t0.lv| > 1 && t0.B > 0 && Tight(t0.lv, t0.B) && Growing(inode.State(), t0, |t0.lv|)
    requires inode.depth + 1 == |t0.lv| && inode.vol.IsLinked()
    requires offset == Up(|t0.lv[0]|, inode.B(), inode.depth) < ROOTS
    requires pool.Valid() && pool.size == 4 * inode.B() && Settled(pool.State(), inode.vol.store, kept)
    modifies inode`blockdir, inode`layers, inode.vol, inode.vol.fs`blocks, pool
    ensures pool.Valid() && |pool.bufs| == |old(pool.bufs)|
    ensures (r.Stray? <==> !Unmisled(log)) && (old(inode.vol.IsSteady()) ==> inode.vol.IsSteady() && !r.Stray?)
    ensures r.DiskFull? ==> Allocator.Exhausted(inode.vol.fs.blocks)
    ensures r.NoBuffer? ==> AllHeld(pool.State()) && |pool.bufs| <= old(LockSum(pool.bufs))
    ensures r.Done? ==> OnPath(inode.State(), t0, inode.depth, r.value) && inode.vol.IsLinked()
    ensures r.Done? ==> InHand(pool.State(), inode.vol.store, held, r.value, kept)
    ensures r.Done? ==> LockSum(pool.bufs) == old(LockSum(pool.bufs)) + Owed(held)
  {
    hide Growing, Up, Tight, Sound, Pow, Linked, Unmisled, RootAdded, Settled, Holding, LockSum, Ok, ZeroBytes,
         Allocator.HintsKept, Allocator.Exhausted, Allocator.Aligned;
    GrowingFacts(inode.State(), t0, |t0.lv|);
    RootOnPath(inode.State(), offset);
    ghost var t := inode.State();
    var missing := inode.blockdir[offset] == 0;
    var root, stray;
    root, stray, log := inode.RootPage(t0, offset);
    held := None;
    if stray {
      return Stray, None, log;
    }
    if root.None? {
      return DiskFull, None, log;
    }
    if missing {
      RootStore(t, inode.State(), root.value);
      held := Take(pool, root.value, true, t.store, kept);
      if held.None? {
        return NoBuffer, None, log;
      }
    }
    return Done(root.value), held, log;
  }

  /** One level down. A page that is added below this one stays in hand; this one
      is marked but not released. */
  method NextPage(inode: Inode, pool: BufferPool, ghost t0: Tree, ghost h: nat, page: nat, offset: nat,
                  held: Option<nat>, ghost kept: set<nat>)
    returns (r: Outcome, next: Option<nat>, ghost log: seq<Search>)
    requires 2 <= h < |t0.lv| && OnPath(inode.State(), t0, h, page) && inode.vol.IsLinked()
    requires offset == PageSlot(Up(|t0.lv[0]|, inode.B(), h - 1), inode.B())
    requires pool.Valid() && pool.size == 4 * inode.B() && InHand(pool.State(), inode.vol.store, held, page, kept)
    modifies inode`layers, inode.vol, inode.vol.fs`blocks, pool
    ensures pool.Valid() && |pool.bufs| == |old(pool.bufs)|
    ensures (r.Stray? <==> !Unmisled(log)) && (old(inode.vol.IsSteady()) ==> inode.vol.IsSteady() && !r.Stray?)
    ensures r.DiskFull? ==> Allocator.Exhausted(inode.vol.fs.blocks)
    ensures r.Done? ==> OnPath(inode.State(), t0, h - 1, r.value) && inode.vol.IsLinked()
    ensures r.Done? ==> InHand(pool.State(), inode.vol.store, next, r.value, kept + {page})
    ensures r.Done? ==> Extends(inode.layers, old(inode.layers))
    ensures var left := old(LockSum(pool.bufs)) - Owed(held) + if NewAt(|t0.lv[0]|, inode.B(), h - 1) then 1 else 0;
            && (r.Done? ==> LockSum(pool.bufs) == left + Owed(next))
            && (r.NoBuffer? ==> AllHeld(pool.State()) && |pool.bufs| <= left)
  {
    hide Growing, Up, Tight, Sound, Pow, Linked, Unmisled, EntryAdded, Settled, LockSum, Ok, ZeroBytes, Marked,
         NewAt, PageSlot, Ptr, SetPtr, Mirrors, Allocator.HintsKept, Allocator.Exhausted, Allocator.Aligned;
    ghost var t := inode.State();
    ReadOnPath(t, t0, h, page, offset);
    ZeroEntry(inode.B(), offset);
    log := [];
    NoSearch();
    var i := held;
    if i.None? {
      i := Take(pool, page, false, t.store, kept);
      if i.None? {
        return NoBuffer, None, log;
      }
    }
    var data := pool.bufs[i.value].data;
    var missing := Ptr(data, offset) == 0;
    var block, stray;
    block, stray, log := inode.NextEntry(t0, h, page, offset);
    if stray {
      return Stray, None, log;
    }
    if block.None? {
      return DiskFull, None, log;
    }
    if missing {
      EntryStore(t, inode.State(), h - 1, page, offset, block.value);
      Put(pool, i.value, SetPtr(data, offset, block.value), t.store, kept);
      next := Take(pool, block.value, true, t.store[page := SetPtr(data, offset, block.value)], kept + {page});
      if next.None? {
        return NoBuffer, None, log;
      }
    } else {
      LetGo(pool, i.value, t.store, kept);
      KeepMore(pool.State(), t.store, kept, kept + {page});
      next := None;
    }
    return Done(block.value), next, log;
  }

  /** The new block's entry in the leaf page. */
  method LeafEntry(inode: Inode, pool: BufferPool, ghost t0: Tree, leaf: nat, offset: nat, held: Option<nat>,
                   ghost kept: set<nat>)
    returns (r: Outcome, ghost log: seq<Search>)
    requires |t0.lv| > 1 && OnPath(inode.State(), t0, 1, leaf) && WellFormed(t0, inode.depth, inode.blocks)
    requires offset == PageSlot(inode.blocks, inode.B()) && inode.vol.IsLinked()
    requires pool.Valid() && pool.size == 4 * inode.B() && InHand(pool.State(), inode.vol.store, held, leaf, kept)
    modifies inode, inode.vol, inode.vol.fs`blocks, pool
    ensures inode.depth == old(inode.depth) && pool.Valid() && |pool.bufs| == |old(pool.bufs)|
    ensures (r.Stray? <==> !Unmisled(log)) && (old(inode.vol.IsSteady()) ==> inode.vol.IsSteady() && !r.Stray?)
    ensures r.DiskFull? ==> Allocator.Exhausted(inode.vol.fs.blocks)
    ensures r.NoBuffer? ==> AllHeld(pool.State()) && |pool.bufs| <= old(LockSum(pool.bufs)) - Owed(held)
    ensures r.Done? ==> Appended(t0, inode.State(), inode.depth, inode.blocks, r.value) && inode.vol.IsLinked()
    ensures r.Done? ==> Settled(pool.State(), inode.vol.store, kept) && Extends(inode.layers, old(inode.layers))
    ensures r.Done? ==> LockSum(pool.bufs) == old(LockSum(pool.bufs)) - Owed(held)
  {
    hide WellFormed, Growing, Appended, Strayed, Up, Tight, Sound, Pow, Linked, Unmisled, EntryAdded, Settled,
         LockSum, Ok, ZeroBytes, Marked, NewAt, PageSlot, Ptr, SetPtr, Mirrors, Allocator.HintsKept,
         Allocator.Exhausted, Allocator.Aligned;
    ghost var t := inode.State();
    WellFormedFacts(t0, inode.depth, inode.blocks);
    UpZero(inode.blocks, inode.B());
    ReadOnPath(t, t0, 1, leaf, offset);
    log := [];
    NoSearch();
    var i := held;
    if i.None? {
      i := Take(pool, leaf, false, t.store, kept);
      if i.None? {
        return NoBuffer, log;
      }
    }
    var data := pool.bufs[i.value].data;
    var block, stray;
    block, stray, log := inode.LeafEntry(t0, leaf, offset);
    if stray {
      return Stray, log;
    }
    if block.None? {
      return DiskFull, log;
    }
    EntryStore(t, inode.State(), 0, leaf, offset, block.value);
    Put(pool, i.value, SetPtr(data, offset, block.value), t.store, kept);
    LetGo(pool, i.value, inode.vol.store, kept);
    return Done(block.value), log;
  }

  /** Down to the leaf page, adding missing pages: each page added below another
      leaves that one's buffer locked. */
  method LeafPage(inode: Inode, pool: BufferPool, ghost t0: Tree, offsets: seq<nat>, ghost kept: set<nat>)
    returns (r: Outcome, held: Option<nat>, ghost log: seq<Search>)
    requires inode.Valid() && inode.depth > 0 && t0 == inode.State()
    requires Up(inode.blocks, inode.B(), inode.depth) < ROOTS && |offsets| == inode.depth + 1
    requires forall d :: 0 <= d <= inode.depth ==> offsets[d] == Digit(inode.blocks, inode.B(), inode.depth, d)
    requires pool.Valid() && pool.size == 4 * inode.B() && Settled(pool.State(), inode.vol.store, kept)
    modifies inode`blockdir, inode`layers, inode.vol, inode.vol.fs`blocks, pool
    ensures pool.Valid() && |pool.bufs| == |old(pool.bufs)|
    ensures (r.Stray? <==> !Unmisled(log)) && (old(inode.vol.IsSteady()) ==> inode.vol.IsSteady() && !r.Stray?)
    ensures r.DiskFull? ==> Allocator.Exhausted(inode.vol.fs.blocks)
    ensures r.Done? ==> |t0.lv| > 1 && OnPath(inode.State(), t0, 1, r.value) && inode.vol.IsLinked()
    ensures r.Done? ==> InHand(pool.State(), inode.vol.store, held, r.value, kept + Upper(inode.layers))
    ensures var left := old(LockSum(pool.bufs)) + LocksLeft(inode.blocks, inode.B(), inode.depth);
            && (r.Done? ==> LockSum(pool.bufs) == left + Owed(held))
            && (r.NoBuffer? ==> AllHeld(pool.State()) && |pool.bufs| <= left)
  {
    hide WellFormed, Growing, Up, Tight, Owned, Pow, Linked, PageSlot, Unmisled, Settled, InHand, OnPath, LockSum, Ok,
         NewAt, Allocator.Exhausted, Allocator.Aligned;
    ghost var B, n := inode.B(), inode.blocks;
    GrowingStart(t0, inode.depth, n);
    WellFormedFacts(t0, inode.depth, n);
    r, held, log := RootPage(inode, pool, t0, offsets[0], kept);
    ghost var h, k := inode.depth, kept;
    var d := 1;
    LeftFewer(n, B, 1, h);
    while d < inode.depth && r.Done?
      invariant 1 <= d <= inode.depth == |t0.lv| - 1 && n == |t0.lv[0]|
      invariant pool.Valid() && |pool.bufs| == |old(pool.bufs)|
      invariant (r.Stray? <==> !Unmisled(log)) && (old(inode.vol.IsSteady()) ==> inode.vol.IsSteady() && !r.Stray?)
      invariant r.DiskFull? ==> Allocator.Exhausted(inode.vol.fs.blocks)
      invariant 0 < h <= inode.depth && (r.Done? ==> h == inode.depth - d + 1)
      invariant r.Done? ==> OnPath(inode.State(), t0, h, r.value) && inode.vol.IsLinked()
      invariant r.Done? ==> InHand(pool.State(), inode.vol.store, held, r.value, k) && k <= kept + Upper(inode.layers)
      invariant LocksLeft(n, B, h) <= LocksLeft(n, B, inode.depth)
      invariant var left := old(LockSum(pool.bufs)) + LocksLeft(n, B, inode.depth) - LocksLeft(n, B, h);
                && (r.Done? ==> LockSum(pool.bufs) == left + Owed(held))
                && (r.NoBuffer? ==> AllHeld(pool.State()) && |pool.bufs| <= left)
    {
      ghost var more;
      var page := r.value;
      ghost var t := inode.State();
      r, held, more := NextPage(inode, pool, t0, h, page, offsets[d], held, k);
      if r.Done? {
        AboveLeaf(t, inode.layers, t0, h, page);
        k := k + {page};
      }
      UnmisledBoth(log, more);
      log := log + more;
      h := h - 1;
      d := d + 1;
    }
    if r.Done? { InHandMore(pool.State(), inode.vol.store, held, r.value, k, kept + Upper(inode.layers)); }
  }

  lemma AboveLeaf(t: Tree, lv: Layers, t0: Tree, h: nat, page: nat)
    requires 2 <= h && OnPath(t, t0, h, page) && Extends(lv, t.lv)
    ensures Upper(t.lv) <= Upper(lv) && page in Upper(lv)
  {
    hide Upper;
    UpperGrows(t.lv, lv);
    UpperHas(t.lv, h, Up(|t0.lv[0]|, t0.B, h));
  }

  lemma {:induction false} LeftFewer(n: nat, B: nat, h: nat, depth: nat)
    requires B > 0 && 1 <= h <= depth
    ensures LocksLeft(n, B, h) <= LocksLeft(n, B, depth)
  {
    if h < depth { LeftFewer(n, B, h, depth - 1); }
  }

  /** set_inode_block as expand_inode calls it. The store and the cache change
      together, and as many locks are left behind as pages were added below
      others. */
  method SetInodeBlock(inode: Inode, pool: BufferPool, ghost kept: set<nat>)
    returns (r: Outcome, ghost log: seq<Search>)
    requires inode.Valid() && Up(inode.blocks, inode.B(), inode.depth) < ROOTS
    requires pool.Valid() && pool.size == 4 * inode.B() && Settled(pool.State(), inode.vol.store, kept)
    modifies inode, inode.vol, inode.vol.fs`blocks, pool
    ensures inode.depth == old(inode.depth) && pool.Valid() && |pool.bufs| == |old(pool.bufs)|
    ensures (r.Stray? <==> !Unmisled(log)) && (old(inode.vol.IsSteady()) ==> inode.vol.IsSteady() && !r.Stray?)
    ensures r.DiskFull? ==> Allocator.Exhausted(inode.vol.fs.blocks)
    ensures r.Done? ==> inode.vol.IsLinked()
    ensures r.Done? ==> Appended(old(inode.State()), inode.State(), inode.depth, inode.blocks, r.value)
    ensures r.Done? ==> Settled(pool.State(), inode.vol.store, kept + Upper(inode.layers))
    ensures var left := old(LockSum(pool.bufs)) + LocksLeft(old(inode.blocks), inode.B(), inode.depth);
            && (r.Done? ==> LockSum(pool.bufs) == left)
            && (r.NoBuffer? ==> AllHeld(pool.State()) && |pool.bufs| <= left)
    ensures r.Done? && old(Quiet(pool.State())) ==>
              (Quiet(pool.State()) <==> inode.depth < 2 || PageSlot(old(inode.blocks), inode.B()) != 0)
  {
    hide WellFormed, Growing, Up, Tight, Owned, Pow, Linked, PageSlot, Unmisled, Settled, InHand, OnPath, LockSum, Ok,
         FromDigits, Appended, Strayed, NewAt, Allocator.Exhausted, Allocator.Aligned, Allocator.HintsKept;
    ghost var t0 := inode.State();
    ghost var B, n := inode.B(), inode.blocks;
    WellFormedFacts(t0, inode.depth, n);
    UpZero(n, B);
    LockSumZero(pool.bufs);
    LocksLeftZero(n, B, inode.depth);
    if inode.depth == 0 {
      var block, stray;
      block, stray, log := inode.AppendFlat();
      r := if stray then Stray else if block.None? then DiskFull else Done(block.value);
      KeepMore(pool.State(), t0.store, kept, kept + Upper(inode.layers));
    } else {
      var offsets := inode.SplitLevels(inode.blocks);
      var held;
      r, held, log := LeafPage(inode, pool, t0, offsets, kept);
      if r.Done? {
        ghost var more;
        ghost var lv := inode.layers;
        r, more := LeafEntry(inode, pool, t0, r.value, offsets[inode.depth], held, kept + Upper(lv));
        if r.Done? {
          UpperGrows(lv, inode.layers);
          KeepMore(pool.State(), inode.vol.store, kept + Upper(lv), kept + Upper(inode.layers));
        }
        UnmisledBoth(log, more);
        log := log + more;
      }
    }
    LockSumZero(pool.bufs);
  }

  /** The new root page of a tree that grows by a level, through the cache. */
  method IncreaseDepth(inode: Inode, pool: BufferPool, ghost kept: set<nat>)
    returns (r: Outcome, ghost log: seq<Search>)
    requires inode.Valid() && |inode.layers[|inode.layers| - 1]| >= 1
    requires pool.Valid() && pool.size == 4 * inode.B() && Settled(pool.State(), inode.vol.store, kept)
    modifies inode, inode.vol, inode.vol.fs`blocks, pool
    ensures pool.Valid() && |pool.bufs| == |old(pool.bufs)| && inode.blocks == old(inode.blocks)
    ensures (r.Stray? <==> !Unmisled(log)) && (old(inode.vol.IsSteady()) ==> inode.vol.IsSteady() && !r.Stray?)
    ensures r.DiskFull? ==> Allocator.Exhausted(inode.vol.fs.blocks)
    ensures r.NoBuffer? ==> AllHeld(pool.State()) && |pool.bufs| <= old(LockSum(pool.bufs))
    ensures r.Done? ==> Settled(pool.State(), inode.vol.store, kept) && LockSum(pool.bufs) == old(LockSum(pool.bufs))
    ensures r.Done? ==> inode.Valid() && DeeperBy(old(inode.State()), inode.State(), old(inode.depth), inode.depth)
  {
    hide WellFormed, Sound, Rep, Tight, Owned, OnlyPagesChanged, Pow, Conserved, Linked, Unmisled, Settled, LockSum,
         Ok, Ptrs, ZeroBytes, Mirrors, Marked, Zeros, Allocator.Exhausted, Allocator.Aligned, Allocator.HintsKept;
    ghost var t := inode.State();
    WellFormedFacts(t, inode.depth, inode.blocks);
    RootsAreBlocks(t);
    var roots := inode.blockdir;
    var ok, stray;
    ok, stray, log := inode.IncreaseDepth();
    if stray {
      return Stray, log;
    }
    if !ok {
      return DiskFull, log;
    }
    var b := inode.blockdir[0];
    var i := Take(pool, b, true, t.store, kept);
    if i.None? {
      return NoBuffer, log;
    }
    var page, dir := inode.MoveRoots(roots);
    SamePtrs(page, inode.vol.store[b]);
    ghost var s := t.store[b := ZeroBytes(pool.size)];
    Put(pool, i.value, page, s, kept);
    assert s[b := page] == inode.vol.store;
    LetGo(pool, i.value, inode.vol.store, kept);
    return Done(b), log;
  }

  /** expand_inode through the cache. */
  method ExpandInode(inode: Inode, pool: BufferPool, ghost kept: set<nat>)
    returns (r: Outcome, ghost log: seq<Search>)
    requires inode.Valid()
    requires pool.Valid() && pool.size == 4 * inode.B() && Settled(pool.State(), inode.vol.store, kept)
    modifies inode, inode.vol, inode.vol.fs`blocks, pool
    ensures pool.Valid() && |pool.bufs| == |old(pool.bufs)|
    ensures (r.Stray? <==> !Unmisled(log)) && (old(inode.vol.IsSteady()) ==> inode.vol.IsSteady() && !r.Stray?)
    ensures r.DiskFull? ==> Allocator.Exhausted(inode.vol.fs.blocks)
    ensures r.Done? ==> inode.vol.IsLinked() && Settled(pool.State(), inode.vol.store, kept + Upper(inode.layers))
    ensures r.Done? ==> Appended(old(inode.State()), inode.State(), inode.depth, inode.blocks, r.value)
    ensures r.Done? ==> inode.depth == NextDepth(inode.B(), old(inode.blocks), old(inode.depth))
    ensures var depth := NextDepth(inode.B(), old(inode.blocks), old(inode.depth));
            var left := old(LockSum(pool.bufs)) + LocksLeft(old(inode.blocks), inode.B(), depth);
            && (r.Done? ==> LockSum(pool.bufs) == left)
            && (r.NoBuffer? ==> AllHeld(pool.State()) && |pool.bufs| <= left)
  {
    hide WellFormed, Appended, Up, Pow, Owned, OnlyPagesChanged, Conserved, Linked, Unmisled, Settled, LockSum, Ok,
         LocksLeft, PageSlot, Quiet, Allocator.Aligned, Allocator.Exhausted;
    ghost var t0 := inode.State();
    WellFormedFacts(t0, inode.depth, inode.blocks);
    Capacity(t0, inode.depth, inode.blocks);
    PowPow(2, inode.vol.logPtrs, inode.depth);
    FullNeedsMore(inode.B(), inode.depth);
    log := [];
    NoSearch();
    var maxblocks := ROOTS * Pow(2, inode.depth * inode.vol.logPtrs);
    if inode.blocks == maxblocks {
      r, log := IncreaseDepth(inode, pool, kept);
      if !r.Done? {
        return;
      }
      DeeperCount(inode.State(), t0, inode.depth - 1, inode.blocks);
    }
    ghost var t1, more := inode.State(), log;
    NothingChanged(t0);
    r, more := SetInodeBlock(inode, pool, kept);
    UnmisledBoth(log, more);
    log := log + more;
    if r.Done? {
      AppendedAfter(t0, t1, inode.State(), inode.depth, inode.blocks, r.value);
    }
  }
}
