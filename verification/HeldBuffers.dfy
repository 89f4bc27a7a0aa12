/** A block store kept in the buffer cache: how get_buffer, alloc_buffer,
    mark_buffer_updated and release_buffer are used, with an account of the locks. */
module HeldBuffers {
  import opened Basics
  import opened Links
  import opened PointerPage
  import opened BufferCache
  import CacheRuns

  /** Block for block, the cache's content is the store. */
  ghost predicate Mirrors(c: Cache, store: map<nat, Block>) {
    && (forall b :: b in store <==> 0 <= b < |c.device|)
    && (forall b :: b in store ==> Logical(c, NIL, b) == store[b])
  }

  /** Somebody holds every buffer. */
  ghost predicate AllHeld(c: Cache) {
    forall i :: 0 <= i < |c.bufs| ==> c.bufs[i].locks > 0
  }

  /** Nobody holds a buffer. */
  ghost predicate Quiet(c: Cache) {
    forall i :: 0 <= i < |c.bufs| ==> c.bufs[i].locks == 0
  }

  // --------------------------------------------------------------- the locks

  /** The locks on all buffers together. */
  function LockSum(bufs: seq<Buf>): nat {
    if |bufs| == 0 then 0 else bufs[0].locks + LockSum(bufs[1..])
  }

  lemma {:induction false} LockSumZero(bufs: seq<Buf>)
    ensures LockSum(bufs) == 0 <==> forall i :: 0 <= i < |bufs| ==> bufs[i].locks == 0
  {
    if |bufs| > 0 {
      LockSumZero(bufs[1..]);
      assert forall i :: 0 < i < |bufs| ==> bufs[i] == bufs[1..][i - 1];
      assert forall i :: 0 <= i < |bufs| - 1 ==> bufs[1..][i] == bufs[i + 1];
    }
  }

  lemma {:induction false} LockSumSame(bufs: seq<Buf>, bufs': seq<Buf>)
    requires |bufs'| == |bufs| && forall j :: 0 <= j < |bufs| ==> bufs'[j].locks == bufs[j].locks
    ensures LockSum(bufs') == LockSum(bufs)
  {
    if |bufs| > 0 { LockSumSame(bufs[1..], bufs'[1..]); }
  }

  lemma {:induction false} LockSumChange(bufs: seq<Buf>, bufs': seq<Buf>, i: nat)
    requires |bufs'| == |bufs| && i < |bufs|
    requires forall j :: 0 <= j < |bufs| && j != i ==> bufs'[j].locks == bufs[j].locks
    ensures LockSum(bufs') + bufs[i].locks == LockSum(bufs) + bufs'[i].locks
  {
    if i == 0 {
      LockSumSame(bufs[1..], bufs'[1..]);
    } else {
      LockSumChange(bufs[1..], bufs'[1..], i - 1);
    }
  }

  lemma {:induction false} LockSumAll(bufs: seq<Buf>)
    requires forall i :: 0 <= i < |bufs| ==> bufs[i].locks > 0
    ensures LockSum(bufs) >= |bufs|
  {
    if |bufs| > 0 { LockSumAll(bufs[1..]); }
  }

  // ------------------------------------------------------------- steps

  ghost predicate Kept(b: Buf, kept: set<nat>) {
    b.state.Updated? && b.blkno in kept
  }

  /** Between operations: the content is the store, and a buffer that somebody
      still holds is marked and has one of these blocks. */
  ghost predicate Settled(c: Cache, store: map<nat, Block>, kept: set<nat>) {
    Mirrors(c, store) && forall j :: 0 <= j < |c.bufs| && c.bufs[j].locks > 0 ==> Kept(c.bufs[j], kept)
  }

  /** Buffer i is in hand and need not be marked yet. */
  ghost predicate Holding(c: Cache, store: map<nat, Block>, i: nat, kept: set<nat>) {
    && i < |c.bufs| && c.bufs[i].locks > 0 && !c.bufs[i].state.Invalid? && Mirrors(c, store)
    && c.bufs[i].blkno in store && c.bufs[i].data == store[c.bufs[i].blkno] && |c.bufs[i].data| == c.size
    && (forall j :: 0 <= j < |c.bufs| && j != i && c.bufs[j].locks > 0 ==> Kept(c.bufs[j], kept))
    && (c.bufs[i].locks > 1 ==> Kept(c.bufs[i], kept))
  }

  lemma NotRevivedWhenSettled(c: Cache, store: map<nat, Block>, kept: set<nat>, b: nat)
    requires Ok(c, NIL) && Settled(c, store, kept)
    ensures !Revived(c, b)
  {
    hide Ok, Mirrors;
    forall j | Caches(c, NIL, j, b) ensures !c.bufs[j].state.Invalid? {
      if c.bufs[j].locks == 0 { CacheRuns.UnlockedNotInvalid(c, j); }
    }
  }

  /** A buffer just got and not changed is as on the device, or marked already. */
  lemma MarkedWhenGot(c: Cache, c': Cache, i: nat, b: nat, store: map<nat, Block>, kept: set<nat>)
    requires Ok(c, NIL) && Settled(c, store, kept) && b < |c.device| && Granted(c, c', i, b)
    requires c'.bufs[i].data == Logical(c, NIL, b) && b < |c'.device| && c'.device[b] == c.device[b]
    ensures Marked(c', i)
  {
    hide Ok, Logical, Mirrors;
    if c'.bufs[i].state.Locked? {
      if Caches(c, NIL, i, b) {
        SavedIsClean(c, i, store, kept);
      } else {
        LogicalMiss(c, NIL, b);
      }
    }
  }

  lemma SavedIsClean(c: Cache, i: nat, store: map<nat, Block>, kept: set<nat>)
    requires Ok(c, NIL) && Settled(c, store, kept) && i < |c.bufs| && Caches(c, NIL, i, c.bufs[i].blkno)
    requires !Unsaved(c.bufs[i].state)
    ensures c.bufs[i].blkno < |c.device| && Logical(c, NIL, c.bufs[i].blkno) == c.device[c.bufs[i].blkno]
  {
    hide Logical, Mirrors;
    assert PlacedAt(c, NIL, i);
    LogicalHit(c, NIL, i);
  }

  /** What getting a block leads to. */
  lemma GotBlock(c: Cache, req: CacheRuns.Request, reply: CacheRuns.Reply, c': Cache, store: map<nat, Block>,
                 kept: set<nat>)
    requires Ok(c, NIL) && Settled(c, store, kept) && (req.Get? || req.Alloc?) && req.b in store
    requires CacheRuns.Answers(c, req, reply, c')
    ensures reply.Got? || (reply.Full? && AllHeld(c') && |c.bufs| <= LockSum(c.bufs))
    ensures reply.Full? <==> CacheRuns.AllLocked(c, req.b)
    ensures reply.Got? ==> reply.data == if req.Get? then store[req.b] else ZeroBytes(c.size)
    ensures reply.Got? ==> Holding(c', store[req.b := reply.data], reply.i, kept)
    ensures reply.Got? ==> c'.bufs[reply.i].blkno == req.b && LockSum(c'.bufs) == LockSum(c.bufs) + 1
    ensures reply.Got? && req.Get? ==> Marked(c', reply.i)
  {
    hide Ok, Logical, Revived, Idle, Marked, LockSum, ZeroBytes;
    NotRevivedWhenSettled(c, store, kept, req.b);
    if reply.Full? {
      LockSumAll(c.bufs);
    } else {
      LockSumChange(c.bufs, c'.bufs, reply.i);
      if Caches(c, NIL, reply.i, req.b) && c.bufs[reply.i].locks == 0 { CacheRuns.UnlockedNotInvalid(c, reply.i); }
      if !Caches(c, NIL, reply.i, req.b) { assert c.bufs[reply.i].locks == 0; }
      if req.Get? { MarkedWhenGot(c, c', reply.i, req.b, store, kept); }
    }
  }

  /** Writing to the buffer in hand. */
  lemma StoredBlock(c: Cache, i: nat, data: Block, reply: CacheRuns.Reply, c': Cache, store: map<nat, Block>,
                    kept: set<nat>)
    requires Holding(c, store, i, kept) && |data| == c.size && CacheRuns.Answers(c, CacheRuns.Store(i, data), reply, c')
    ensures Holding(c', store[c.bufs[i].blkno := data], i, kept) && c'.bufs[i].blkno == c.bufs[i].blkno
    ensures LockSum(c'.bufs) == LockSum(c.bufs)
  {
    hide Logical, LockSum;
    LockSumSame(c.bufs, c'.bufs);
  }

  /** Marking the buffer in hand. */
  lemma UpdatedBlock(c: Cache, i: nat, reply: CacheRuns.Reply, c': Cache, store: map<nat, Block>, kept: set<nat>)
    requires Holding(c, store, i, kept) && CacheRuns.Answers(c, CacheRuns.Update(i), reply, c')
    ensures Holding(c', store, i, kept) && Settled(c', store, kept + {c.bufs[i].blkno})
    ensures Marked(c', i) && c'.bufs[i].blkno == c.bufs[i].blkno
    ensures LockSum(c'.bufs) == LockSum(c.bufs)
  {
    hide Logical, LockSum;
    LockSumSame(c.bufs, c'.bufs);
  }

  /** Releasing the buffer in hand. */
  lemma ReleasedBlock(c: Cache, i: nat, reply: CacheRuns.Reply, c': Cache, store: map<nat, Block>, kept: set<nat>)
    requires Holding(c, store, i, kept) && Marked(c, i) && CacheRuns.Answers(c, CacheRuns.Release(i), reply, c')
    ensures Settled(c', store, kept) && LockSum(c'.bufs) + 1 == LockSum(c.bufs)
  {
    hide Logical, LockSum, Idle;
    LockSumChange(c.bufs, c'.bufs, i);
  }

  lemma KeepMore(c: Cache, store: map<nat, Block>, kept: set<nat>, more: set<nat>)
    requires Settled(c, store, kept) && kept <= more
    ensures Settled(c, store, more)
  {
    hide Mirrors;
  }

  lemma HoldMore(c: Cache, store: map<nat, Block>, i: nat, kept: set<nat>, more: set<nat>)
    requires Holding(c, store, i, kept) && kept <= more
    ensures Holding(c, store, i, more)
  {
    hide Mirrors;
  }

  /** A quiet pool is settled with nothing kept. */
  lemma QuietIsSettled(c: Cache, store: map<nat, Block>, kept: set<nat>)
    requires Mirrors(c, store)
    ensures Quiet(c) ==> Settled(c, store, kept)
    ensures Settled(c, store, {}) ==> Quiet(c)
    ensures Quiet(c) <==> LockSum(c.bufs) == 0
  {
    hide Mirrors, LockSum;
    LockSumZero(c.bufs);
  }

  /** flush_buffers writes every block that is not kept. */
  lemma FlushedBlocks(c: Cache, reply: CacheRuns.Reply, c': Cache, store: map<nat, Block>, kept: set<nat>)
    requires CacheRuns.Answers(c, CacheRuns.Flush, reply, c') && Settled(c, store, kept)
    ensures Settled(c', store, kept) && LockSum(c'.bufs) == LockSum(c.bufs) && |c'.bufs| == |c.bufs|
    ensures forall b :: b in store ==> b < |c'.device| && (c'.device[b] == store[b] || !CacheRuns.NotHeld(c', b))
    ensures forall b :: b in store && b !in kept ==> CacheRuns.NotHeld(c', b)
  {
    hide Logical, LockSum;
    LockSumSame(c.bufs, c'.bufs);
    forall b | b in store && b !in kept ensures CacheRuns.NotHeld(c', b) {}
  }

  // --------------------------------------------------------- on the real pool

  /** get_buffer or alloc_buffer. Without a buffer to be had the program stops. */
  method Take(pool: BufferPool, b: nat, anew: bool, ghost store: map<nat, Block>, ghost kept: set<nat>)
    returns (r: Option<nat>)
    requires pool.Valid() && Settled(pool.State(), store, kept) && b in store
    modifies pool
    ensures pool.Valid() && |pool.bufs| == |old(pool.bufs)|
    ensures r.None? <==> CacheRuns.AllLocked(old(pool.State()), b)
    ensures r.None? ==> AllHeld(pool.State()) && |pool.bufs| <= old(LockSum(pool.bufs))
    ensures r.Some? ==> Holding(pool.State(), if anew then store[b := ZeroBytes(pool.size)] else store, r.value, kept)
    ensures r.Some? ==> r.value < |pool.bufs| && pool.bufs[r.value].blkno == b
    ensures r.Some? ==> LockSum(pool.bufs) == old(LockSum(pool.bufs)) + 1 && (!anew ==> Marked(pool.State(), r.value))
  {
    hide Ok, Mirrors, Settled, CacheRuns.Effect, Marked, LockSum, ZeroBytes;
    ghost var c := pool.State();
    var req := if anew then CacheRuns.Alloc(b) else CacheRuns.Get(b);
    var reply := CacheRuns.Serve(pool, req);
    GotBlock(c, req, reply, pool.State(), store, kept);
    assert store[b := store[b]] == store;
    r := if reply.Got? then Some(reply.i) else None;
  }

  /** Write to the buffer and mark it updated. */
  method Put(pool: BufferPool, i: nat, data: Block, ghost store: map<nat, Block>, ghost kept: set<nat>)
    requires pool.Valid() && Holding(pool.State(), store, i, kept) && |data| == pool.size
    modifies pool
    ensures pool.Valid() && |pool.bufs| == |old(pool.bufs)| && old(i < |pool.bufs|)
    ensures i < |pool.bufs| && pool.bufs[i].blkno == old(pool.bufs[i].blkno)
    ensures Holding(pool.State(), store[old(pool.bufs[i].blkno) := data], i, kept) && Marked(pool.State(), i)
    ensures Settled(pool.State(), store[old(pool.bufs[i].blkno) := data], kept + {old(pool.bufs[i].blkno)})
    ensures LockSum(pool.bufs) == old(LockSum(pool.bufs))
  {
    hide Ok, Mirrors, Settled, CacheRuns.Effect, Marked, LockSum;
    ghost var c, now := pool.State(), store[pool.bufs[i].blkno := data];
    var done := CacheRuns.Serve(pool, CacheRuns.Store(i, data));
    ghost var c1 := pool.State();
    StoredBlock(c, i, data, done, c1, store, kept);
    done := CacheRuns.Serve(pool, CacheRuns.Update(i));
    UpdatedBlock(c1, i, done, pool.State(), now, kept);
  }

  /** release_buffer */
  method LetGo(pool: BufferPool, i: nat, ghost store: map<nat, Block>, ghost kept: set<nat>)
    requires pool.Valid() && Holding(pool.State(), store, i, kept) && Marked(pool.State(), i)
    modifies pool
    ensures pool.Valid() && |pool.bufs| == |old(pool.bufs)| && Settled(pool.State(), store, kept)
    ensures LockSum(pool.bufs) + 1 == old(LockSum(pool.bufs))
  {
    hide Ok, Mirrors, Settled, Holding, CacheRuns.Effect, Marked, LockSum;
    ghost var c := pool.State();
    var done := CacheRuns.Serve(pool, CacheRuns.Release(i));
    ReleasedBlock(c, i, done, pool.State(), store, kept);
  }

  /** get_buffer, use the data, release_buffer. */
  method ReadBlock(pool: BufferPool, b: nat, ghost store: map<nat, Block>, ghost kept: set<nat>)
    returns (r: Option<Block>)
    requires pool.Valid() && Settled(pool.State(), store, kept) && b in store
    modifies pool
    ensures pool.Valid() && |pool.bufs| == |old(pool.bufs)|
    ensures r.None? ==> AllHeld(pool.State()) && |pool.bufs| <= old(LockSum(pool.bufs))
    ensures r.Some? ==> Settled(pool.State(), store, kept) && r.value == store[b] &&
                        LockSum(pool.bufs) == old(LockSum(pool.bufs))
  {
    hide Ok, Mirrors, Settled, Marked, LockSum;
    var i := Take(pool, b, false, store, kept);
    if i.None? {
      return None;
    }
    r := Some(pool.bufs[i.value].data);
    LetGo(pool, i.value, store, kept);
  }
}
