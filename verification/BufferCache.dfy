/** The buffer cache (utils/dfs/buf.c) in sequential runs, where device access
    is atomic. Buffer pointers are indices into the pool's array of buffers. */
module BufferCache {
  import opened Links
  import opened BufferLists
  import opened PointerPage

  datatype State = Free | Clean | Dirty | Reading | Writing | Locked | Updated | Invalid

  datatype Buf = Buf(state: State, locks: nat, blkno: nat, data: Block)

  datatype Cache = Cache(size: nat, bufs: seq<Buf>, lists: Chains, hash: Hash, device: seq<Block>)

  function SlotOf(blkno: nat): nat {
    blkno % HASHSIZE
  }

  /** Neighbouring blocks go to different buckets, as many as there are. */
  lemma SlotsSpread(a: nat, b: nat)
    requires a < b < a + HASHSIZE
    ensures SlotOf(a) != SlotOf(b) && SlotOf(a) < HASHSIZE
  {}

  ghost predicate Unlocked(b: Buf) {
    b.state.Free? || b.state.Clean? || b.state.Dirty?
  }

  ghost predicate InBucket(h: Hash, i: int, s: int) {
    0 <= s < |h.buckets| && 0 <= i && i in h.buckets[s]
  }

  /** Buffer i is in exactly the lists its state says, and clean means equal to
      the device. A buffer being handed over (x) is in none and unlocked. */
  ghost predicate PlacedAt(c: Cache, x: int, i: nat)
    requires i < |c.bufs|
  {
    var b := c.bufs[i];
    && (i in c.lists.frees <==> i != x && b.state.Free?)
    && (i in c.lists.cleans <==> i != x && b.state.Clean?)
    && (i in c.lists.dirties <==> i != x && b.state.Dirty?)
    && (InBucket(c.hash, i, SlotOf(b.blkno)) <==> i != x && !b.state.Free?)
    && !b.state.Reading? && !b.state.Writing?
    && (if i == x then b.locks == 0 else (b.locks == 0 <==> Unlocked(b)))
    && |b.data| == c.size
    && (i != x && !b.state.Free? ==> b.blkno < |c.device|)
    && (i != x && b.state.Clean? ==> b.data == c.device[b.blkno])
  }

  ghost predicate Caches(c: Cache, x: int, i: int, blkno: nat) {
    0 <= i < |c.bufs| && i != x && !c.bufs[i].state.Free? && c.bufs[i].blkno == blkno
  }

  ghost predicate Pending(c: Cache, x: int, i: int, blkno: nat) {
    Caches(c, x, i, blkno) && !c.bufs[i].state.Invalid?
  }

  /** A block is cached at most once. */
  ghost predicate Unique(c: Cache, x: int) {
    forall i, j, b :: Caches(c, x, i, b) && Caches(c, x, j, b) ==> i == j
  }

  ghost predicate Ok(c: Cache, x: int) {
    && ChainsOk(c.lists) && HashOk(c.hash)
    && |c.lists.chain| == |c.hash.bucket| == |c.bufs|
    && (forall i :: 0 <= i < |c.bufs| ==> PlacedAt(c, x, i))
    && (forall s, i :: InBucket(c.hash, i, s) ==> i < |c.bufs| && SlotOf(c.bufs[i].blkno) == s)
    && (forall b :: 0 <= b < |c.device| ==> |c.device[b]| == c.size)
    && Unique(c, x)
  }

  /** What a block contains: the pending data if it is cached and not marked
      invalid, else what is on the device. */
  ghost function Logical(c: Cache, x: int, b: nat): Block
    requires b < |c.device|
  {
    if exists i :: Pending(c, x, i, b) then
      var i :| Pending(c, x, i, b);
      c.bufs[i].data
    else
      c.device[b]
  }

  lemma LogicalHit(c: Cache, x: int, i: nat)
    requires Unique(c, x) && i < |c.bufs| && c.bufs[i].blkno < |c.device|
    requires Caches(c, x, i, c.bufs[i].blkno)
    ensures Logical(c, x, c.bufs[i].blkno) ==
            if c.bufs[i].state.Invalid? then c.device[c.bufs[i].blkno] else c.bufs[i].data
  {
    var b := c.bufs[i].blkno;
    assert forall j :: Caches(c, x, j, b) ==> j == i;
    if !c.bufs[i].state.Invalid? { assert Pending(c, x, i, b); }
  }

  lemma LogicalMiss(c: Cache, x: int, b: nat)
    requires b < |c.device| && forall i :: !Caches(c, x, i, b)
    ensures Logical(c, x, b) == c.device[b]
  {
    assert forall i :: !Pending(c, x, i, b);
  }

  ghost predicate SameContent(c: Cache, x: int, c': Cache, x': int) {
    |c'.device| == |c.device| && forall b :: 0 <= b < |c.device| ==> Logical(c', x', b) == Logical(c, x, b)
  }

  // ------------------------------------------------ one buffer changes at a time

  /** Members other than i are in the same lists and buckets. */
  ghost predicate SameMembers(c: Cache, c': Cache, i: nat) {
    && (forall j :: j != i ==> (j in c'.lists.frees <==> j in c.lists.frees))
    && (forall j :: j != i ==> (j in c'.lists.cleans <==> j in c.lists.cleans))
    && (forall j :: j != i ==> (j in c'.lists.dirties <==> j in c.lists.dirties))
    && (forall s, j :: j != i ==> (InBucket(c'.hash, j, s) <==> InBucket(c.hash, j, s)))
  }

  lemma MemberAt(c: Cache, c': Cache, i: nat, j: nat, s: int)
    requires SameMembers(c, c', i) && j != i
    ensures j in c'.lists.frees <==> j in c.lists.frees
    ensures j in c'.lists.cleans <==> j in c.lists.cleans
    ensures j in c'.lists.dirties <==> j in c.lists.dirties
    ensures InBucket(c'.hash, j, s) <==> InBucket(c.hash, j, s)
  {}

  /** Everything but buffer i, and the device block it caches, is as before. */
  ghost predicate OnlyBuffer(c: Cache, x: int, c': Cache, x': int, i: nat) {
    && |c'.bufs| == |c.bufs| && c'.size == c.size && i < |c.bufs|
    && |c'.lists.chain| == |c.lists.chain| && |c'.hash.bucket| == |c.hash.bucket|
    && (forall j :: 0 <= j < |c.bufs| && j != i ==> c'.bufs[j] == c.bufs[j] && (j == x <==> j == x'))
    && |c'.device| == |c.device|
    && (forall b :: 0 <= b < |c.device| ==>
       c'.device[b] == c.device[b] || (Caches(c, x, i, b) && |c'.device[b]| == c.size))
    && SameMembers(c, c', i)
  }

  /** Such caches agree on every block that buffer i has nothing to do with. */
  lemma LogicalElsewhere(c: Cache, x: int, c': Cache, x': int, i: nat, b: nat)
    requires Unique(c, x) && Unique(c', x') && OnlyBuffer(c, x, c', x', i) && b < |c.device|
    requires !Caches(c, x, i, b) && !Caches(c', x', i, b)
    ensures Logical(c', x', b) == Logical(c, x, b)
  {
    hide SameMembers;
    forall j ensures Pending(c, x, j, b) == Pending(c', x', j, b) {
      if j != i { assert Caches(c, x, j, b) == Caches(c', x', j, b); }
    }
    if j :| Pending(c, x, j, b) {
      assert Pending(c', x', j, b);
      LogicalHit(c, x, j);
      LogicalHit(c', x', j);
    }
  }

  /** If buffer i is placed right again and clashes with no other, all is well. */
  lemma OkStep(c: Cache, x: int, c': Cache, x': int, i: nat)
    requires Ok(c, x) && ChainsOk(c'.lists) && HashOk(c'.hash) && OnlyBuffer(c, x, c', x', i)
    requires PlacedAt(c', x', i)
    requires forall s :: InBucket(c'.hash, i, s) ==> s == SlotOf(c'.bufs[i].blkno)
    requires forall j, b :: Caches(c', x', i, b) && j != i ==> !Caches(c, x, j, b)
    ensures Ok(c', x')
  {
    hide ChainsOk, HashOk, SameMembers, PlacedAt, SlotOf;
    forall j | 0 <= j < |c'.bufs| ensures PlacedAt(c', x', j) {
      if j != i {
        OtherPlaced(c, x, c', x', i, j);
      }
    }
    UniqueStep(c, x, c', x', i);
    assert forall b :: 0 <= b < |c.device| ==> |c.device[b]| == c.size;
    forall s, j | InBucket(c'.hash, j, s) ensures j < |c'.bufs| && SlotOf(c'.bufs[j].blkno) == s {
      if j != i { MemberAt(c, c', i, j, s); }
    }
  }

  lemma UniqueStep(c: Cache, x: int, c': Cache, x': int, i: nat)
    requires Unique(c, x) && OnlyBuffer(c, x, c', x', i)
    requires forall j, b :: Caches(c', x', i, b) && j != i ==> !Caches(c, x, j, b)
    ensures Unique(c', x')
  {
    hide SameMembers;
    forall j, k, b | Caches(c', x', j, b) && Caches(c', x', k, b) ensures j == k {
      assert j != i ==> Caches(c, x, j, b);
      assert k != i ==> Caches(c, x, k, b);
    }
  }

  lemma OtherPlaced(c: Cache, x: int, c': Cache, x': int, i: nat, j: nat)
    requires Ok(c, x) && OnlyBuffer(c, x, c', x', i) && j < |c.bufs| && j != i
    ensures PlacedAt(c', x', j)
  {
    hide ChainsOk, HashOk, SameMembers, SlotOf;
    assert PlacedAt(c, x, j);
    var b := c.bufs[j].blkno;
    MemberAt(c, c', i, j, SlotOf(b));
    if j != x && !c.bufs[j].state.Free? {
      assert Caches(c, x, j, b);
      assert !Caches(c, x, i, b);
    }
  }

  /** Content is kept everywhere if it is kept at the blocks buffer i caches. */
  lemma ContentStep(c: Cache, x: int, c': Cache, x': int, i: nat)
    requires Ok(c, x) && Ok(c', x') && OnlyBuffer(c, x, c', x', i)
    requires forall b :: 0 <= b < |c.device| && (Caches(c, x, i, b) || Caches(c', x', i, b)) ==>
               Logical(c', x', b) == Logical(c, x, b)
    ensures SameContent(c, x, c', x')
  {
    hide ChainsOk, HashOk, PlacedAt, SameMembers, Logical;
    forall b | 0 <= b < |c.device| ensures Logical(c', x', b) == Logical(c, x, b) {
      if !Caches(c, x, i, b) && !Caches(c', x', i, b) {
        LogicalElsewhere(c, x, c', x', i, b);
      }
    }
  }

  ghost predicate SameContentBut(c: Cache, c': Cache, b0: nat) {
    && |c'.device| == |c.device|
    && forall b :: 0 <= b < |c.device| && b != b0 ==> Logical(c', NIL, b) == Logical(c, NIL, b)
  }

  lemma OkAt(c: Cache, x: int, i: nat)
    requires Ok(c, x) && i < |c.bufs|
    ensures PlacedAt(c, x, i) && Unique(c, x) && ChainsOk(c.lists) && HashOk(c.hash)
    ensures |c.lists.chain| == |c.hash.bucket| == |c.bufs|
    ensures forall s :: InBucket(c.hash, i, s) ==> s == SlotOf(c.bufs[i].blkno)
    ensures i != x && !c.bufs[i].state.Free? ==> Caches(c, x, i, c.bufs[i].blkno)
  {}

  /** A change to a buffer that is and stays locked, on the same block. */
  lemma Retouch(c: Cache, i: nat, b': Buf)
    requires Ok(c, NIL) && i < |c.bufs| && c.bufs[i].locks > 0
    requires b'.locks > 0 && b'.blkno == c.bufs[i].blkno && |b'.data| == c.size
    requires b'.state.Locked? || b'.state.Updated? || b'.state.Invalid?
    ensures Ok(c.(bufs := c.bufs[i := b']), NIL)
    ensures b'.blkno < |c.device|
    ensures SameContentBut(c, c.(bufs := c.bufs[i := b']), b'.blkno)
    ensures Logical(c.(bufs := c.bufs[i := b']), NIL, b'.blkno) ==
            if b'.state.Invalid? then c.device[b'.blkno] else b'.data
  {
    hide Ok, ChainsOk, HashOk, Logical;
    var c' := c.(bufs := c.bufs[i := b']);
    OkAt(c, NIL, i);
    OkSizes(c, NIL);
    UniqueAt(c, NIL, i);
    OkStep(c, NIL, c', NIL, i);
    OkAt(c', NIL, i);
    forall b | 0 <= b < |c.device| && b != b'.blkno ensures Logical(c', NIL, b) == Logical(c, NIL, b) {
      LogicalElsewhere(c, NIL, c', NIL, i, b);
    }
    LogicalHit(c', NIL, i);
  }

  lemma OkSizes(c: Cache, x: int)
    requires Ok(c, x)
    ensures forall b :: 0 <= b < |c.device| ==> |c.device[b]| == c.size
    ensures |c.lists.chain| == |c.hash.bucket| == |c.bufs|
    ensures ChainsOk(c.lists) && HashOk(c.hash) && Unique(c, x)
  {}

  /** No other buffer caches the block that buffer i caches. */
  lemma UniqueAt(c: Cache, x: int, i: nat)
    requires Unique(c, x) && i < |c.bufs| && Caches(c, x, i, c.bufs[i].blkno)
    ensures forall j :: j != i ==> !Caches(c, x, j, c.bufs[i].blkno)
  {}

  /** What buffer i contributes to the content of its block. */
  ghost function Contribution(c: Cache, i: nat): Block
    requires i < |c.bufs| && c.bufs[i].blkno < |c.device|
  {
    if c.bufs[i].state.Invalid? then c.device[c.bufs[i].blkno] else c.bufs[i].data
  }

  /** Buffer i moved between the chains, on the same block, whose device copy
      may have been written. */
  ghost predicate Relisted(c: Cache, c': Cache, i: nat) {
    && |c'.bufs| == |c.bufs| && i < |c.bufs| && c'.size == c.size && c'.hash == c.hash
    && |c'.lists.chain| == |c.lists.chain|
    && c'.bufs == c.bufs[i := c'.bufs[i]]
    && c'.bufs[i].blkno == c.bufs[i].blkno < |c.device| == |c'.device|
    && c'.device == c.device[c.bufs[i].blkno := c'.device[c.bufs[i].blkno]]
    && |c'.device[c.bufs[i].blkno]| == c.size
    && (forall j :: j != i ==> (j in c'.lists.frees <==> j in c.lists.frees))
    && (forall j :: j != i ==> (j in c'.lists.cleans <==> j in c.lists.cleans))
    && (forall j :: j != i ==> (j in c'.lists.dirties <==> j in c.lists.dirties))
  }

  lemma RelistedOnly(c: Cache, c': Cache, i: nat)
    requires Relisted(c, c', i) && Caches(c, NIL, i, c.bufs[i].blkno)
    ensures OnlyBuffer(c, NIL, c', NIL, i)
  {}

  /** If it is placed right the pool is fine, and the content is kept if the
      buffer contributes the same as before. */
  lemma Relist(c: Cache, c': Cache, i: nat)
    requires Ok(c, NIL) && Relisted(c, c', i) && ChainsOk(c'.lists)
    requires !c.bufs[i].state.Free? && PlacedAt(c', NIL, i) && !c'.bufs[i].state.Free?
    requires Contribution(c', i) == Contribution(c, i)
    ensures Ok(c', NIL) && SameContent(c, NIL, c', NIL)
  {
    hide Ok, ChainsOk, HashOk, Logical, OnlyBuffer;
    OkAt(c, NIL, i);
    OkSizes(c, NIL);
    UniqueAt(c, NIL, i);
    RelistedOnly(c, c', i);
    OkStep(c, NIL, c', NIL, i);
    OkAt(c', NIL, i);
    LogicalHit(c, NIL, i);
    LogicalHit(c', NIL, i);
    ContentStep(c, NIL, c', NIL, i);
  }

  function TakenFromClean(c: Cache, i: nat, k: nat): Cache
    requires i < |c.bufs| && i < |c.lists.chain| && k < |c.lists.cleans|
  {
    c.(bufs := c.bufs[i := c.bufs[i].(state := Locked, locks := c.bufs[i].locks + 1)],
      lists := UnlinkClean(c.lists, i, k))
  }

  /** lookup_buffer on a clean buffer. */
  lemma TakeCleanOk(c: Cache, k: nat)
    requires Ok(c, NIL) && k < |c.lists.cleans|
    ensures c.lists.cleans[k] < |c.bufs| && c.lists.cleans[k] < |c.lists.chain|
    ensures var i := c.lists.cleans[k];
            Ok(TakenFromClean(c, i, k), NIL) && SameContent(c, NIL, TakenFromClean(c, i, k), NIL)
  {
    hide Ok, ChainsOk, HashOk, UnlinkClean, Without;
    OkSizes(c, NIL);
    UnlinkCleanOk(c.lists, k);
    var i := c.lists.cleans[k];
    OkAt(c, NIL, i);
    UnlinkCleanElse(c.lists, i, k);
    Relist(c, TakenFromClean(c, i, k), i);
  }

  lemma UnlinkCleanElse(l: Chains, i: nat, k: nat)
    requires i < |l.chain| && k < |l.cleans|
    ensures UnlinkClean(l, i, k).frees == l.frees && UnlinkClean(l, i, k).dirties == l.dirties
  {}

  lemma UnlinkDirtyElse(l: Chains, i: nat, k: nat)
    requires i < |l.chain| && k < |l.dirties|
    ensures UnlinkDirty(l, i, k).frees == l.frees && UnlinkDirty(l, i, k).cleans == l.cleans
  {}

  function TakenFromDirty(c: Cache, i: nat, k: nat): Cache
    requires i < |c.bufs| && i < |c.lists.chain| && k < |c.lists.dirties|
  {
    c.(bufs := c.bufs[i := c.bufs[i].(state := Updated, locks := c.bufs[i].locks + 1)],
      lists := UnlinkDirty(c.lists, i, k))
  }

  /** lookup_buffer on a dirty buffer. */
  lemma TakeDirtyOk(c: Cache, k: nat)
    requires Ok(c, NIL) && k < |c.lists.dirties|
    ensures c.lists.dirties[k] < |c.bufs| && c.lists.dirties[k] < |c.lists.chain|
    ensures var i := c.lists.dirties[k];
            Ok(TakenFromDirty(c, i, k), NIL) && SameContent(c, NIL, TakenFromDirty(c, i, k), NIL)
  {
    hide Ok, ChainsOk, HashOk, UnlinkDirty, Without;
    OkSizes(c, NIL);
    UnlinkDirtyOk(c.lists, k);
    var i := c.lists.dirties[k];
    OkAt(c, NIL, i);
    UnlinkDirtyElse(c.lists, i, k);
    Relist(c, TakenFromDirty(c, i, k), i);
  }

  function PutOnClean(c: Cache, i: nat): Cache
    requires i < |c.bufs| && i < |c.lists.chain|
  {
    c.(bufs := c.bufs[i := c.bufs[i].(state := Clean, locks := 0)], lists := AppendClean(c.lists, i))
  }

  /** The last release of a locked buffer: it must agree with the device. */
  lemma PutOnCleanOk(c: Cache, i: nat)
    requires Ok(c, NIL) && i < |c.bufs| && c.bufs[i].state.Locked?
    requires c.bufs[i].blkno < |c.device| && c.bufs[i].data == c.device[c.bufs[i].blkno]
    ensures i < |c.lists.chain| && Ok(PutOnClean(c, i), NIL) && SameContent(c, NIL, PutOnClean(c, i), NIL)
  {
    hide Ok, ChainsOk, HashOk, Appended, EndsWith;
    OkSizes(c, NIL);
    OkAt(c, NIL, i);
    AppendCleanOk(c.lists, i);
    Relist(c, PutOnClean(c, i), i);
  }

  function PutOnDirty(c: Cache, i: nat): Cache
    requires i < |c.bufs| && i < |c.lists.chain|
  {
    c.(bufs := c.bufs[i := c.bufs[i].(state := Dirty, locks := 0)], lists := AppendDirty(c.lists, i))
  }

  lemma PutOnDirtyOk(c: Cache, i: nat)
    requires Ok(c, NIL) && i < |c.bufs| && c.bufs[i].state.Updated?
    ensures i < |c.lists.chain| && Ok(PutOnDirty(c, i), NIL) && SameContent(c, NIL, PutOnDirty(c, i), NIL)
  {
    hide Ok, ChainsOk, HashOk, Appended, EndsWith;
    OkSizes(c, NIL);
    OkAt(c, NIL, i);
    AppendDirtyOk(c.lists, i);
    Relist(c, PutOnDirty(c, i), i);
  }

  function Flushed(c: Cache, i: nat, k: nat): Cache
    requires i < |c.bufs| && i < |c.lists.chain| && k < |c.lists.dirties| && c.bufs[i].blkno < |c.device|
  {
    c.(bufs := c.bufs[i := c.bufs[i].(state := Clean)],
       lists := var l := UnlinkDirty(c.lists, i, k); if i < |l.chain| then AppendClean(l, i) else l,
       device := c.device[c.bufs[i].blkno := c.bufs[i].data])
  }

  /** One turn of flush_buffers: written to the device, then clean. */
  lemma FlushOneOk(c: Cache, k: nat)
    requires Ok(c, NIL) && k < |c.lists.dirties|
    ensures c.lists.dirties[k] < |c.bufs| && c.lists.dirties[k] < |c.lists.chain|
    ensures var i := c.lists.dirties[k];
            && c.bufs[i].blkno < |c.device|
            && Ok(Flushed(c, i, k), NIL) && SameContent(c, NIL, Flushed(c, i, k), NIL)
  {
    hide Ok, ChainsOk, HashOk, UnlinkDirty, Without, Appended, EndsWith;
    OkSizes(c, NIL);
    UnlinkDirtyOk(c.lists, k);
    var i := c.lists.dirties[k];
    OkAt(c, NIL, i);
    UnlinkDirtyElse(c.lists, i, k);
    AppendCleanOk(UnlinkDirty(c.lists, i, k), i);
    Relist(c, Flushed(c, i, k), i);
  }

  // ------------------------------------------------------- leaving the table

  /** The position of a hashed buffer in its bucket. */
  ghost function Position(h: Hash, i: nat, s: nat): (k: nat)
    requires InBucket(h, i, s)
    ensures k < |h.buckets[s]| && h.buckets[s][k] == i
  {
    var k :| 0 <= k < |h.buckets[s]| && h.buckets[s][k] == i;
    k
  }

  ghost function WithoutBuffer(h: Hash, i: nat, s: nat): Hash
    requires InBucket(h, i, s) && s < |h.table| && i < |h.bucket|
  {
    Unhashed(h, s, i, Position(h, i, s))
  }

  lemma WithoutBufferOk(h: Hash, i: nat, s: nat)
    requires HashOk(h) && InBucket(h, i, s)
    ensures s < |h.table| && i < |h.bucket|
    ensures HashOk(WithoutBuffer(h, i, s)) && |WithoutBuffer(h, i, s).bucket| == |h.bucket|
    ensures forall t, j :: j != i ==> (InBucket(WithoutBuffer(h, i, s), j, t) <==> InBucket(h, j, t))
    ensures forall t :: !InBucket(WithoutBuffer(h, i, s), i, t)
  {
    hide Unlinked, HeadWithout, Without;
    UnhashOk(h, s, Position(h, i, s));
    forall t | 0 <= t < HASHSIZE && t != s ensures !InBucket(h, i, t) { OtherBucket(h, s, t); }
  }

  ghost function PutOnFree(c: Cache, i: nat): Cache
    requires i < |c.bufs| && i < |c.lists.chain| && i < |c.hash.bucket|
    requires InBucket(c.hash, i, SlotOf(c.bufs[i].blkno)) && |c.hash.table| == HASHSIZE
  {
    c.(bufs := c.bufs[i := c.bufs[i].(state := Free, locks := 0)], lists := PushFree(c.lists, i),
       hash := WithoutBuffer(c.hash, i, SlotOf(c.bufs[i].blkno)))
  }

  lemma HashedAt(c: Cache, x: int, i: nat)
    requires Ok(c, x) && i < |c.bufs| && i != x && !c.bufs[i].state.Free?
    ensures i < |c.lists.chain| && i < |c.hash.bucket| && |c.hash.table| == HASHSIZE
    ensures InBucket(c.hash, i, SlotOf(c.bufs[i].blkno)) && c.bufs[i].blkno < |c.device|
  {
    assert PlacedAt(c, x, i);
  }

  /** The last release of an invalid buffer: its pending data is dropped. */
  lemma PutOnFreeOk(c: Cache, i: nat)
    requires Ok(c, NIL) && i < |c.bufs| && c.bufs[i].state.Invalid?
    ensures i < |c.lists.chain| && i < |c.hash.bucket| && |c.hash.table| == HASHSIZE
    ensures InBucket(c.hash, i, SlotOf(c.bufs[i].blkno))
    ensures Ok(PutOnFree(c, i), NIL) && SameContent(c, NIL, PutOnFree(c, i), NIL)
  {
    hide Ok, ChainsOk, HashOk, Logical, WithoutBuffer, SlotOf;
    HashedAt(c, NIL, i);
    OkAt(c, NIL, i);
    OkSizes(c, NIL);
    UniqueAt(c, NIL, i);
    PushFreeOk(c.lists, i);
    WithoutBufferOk(c.hash, i, SlotOf(c.bufs[i].blkno));
    var c' := PutOnFree(c, i);
    OkStep(c, NIL, c', NIL, i);
    Dropped(c, NIL, c', NIL, i);
  }

  /** Buffer i stops caching its block b, and the device holds what b contained. */
  lemma Dropped(c: Cache, x: int, c': Cache, x': int, i: nat)
    requires Ok(c, x) && Ok(c', x') && OnlyBuffer(c, x, c', x', i)
    requires Caches(c, x, i, c.bufs[i].blkno) && c.bufs[i].blkno < |c.device|
    requires forall b :: !Caches(c', x', i, b)
    requires c'.device[c.bufs[i].blkno] == Contribution(c, i)
    ensures SameContent(c, x, c', x')
  {
    hide Ok, Logical;
    OkSizes(c, x);
    UniqueAt(c, x, i);
    LogicalHit(c, x, i);
    forall j ensures !Caches(c', x', j, c.bufs[i].blkno) {
      assert j != i ==> Caches(c', x', j, c.bufs[i].blkno) == Caches(c, x, j, c.bufs[i].blkno);
    }
    LogicalMiss(c', x', c.bufs[i].blkno);
    ContentStep(c, x, c', x', i);
  }

  /** get_new_buffer from the free list. */
  lemma PopFreeListOk(c: Cache)
    requires Ok(c, NIL) && c.lists.freelist != NIL
    ensures 0 <= c.lists.freelist < |c.bufs| && |c.lists.frees| > 0 && c.lists.freelist < |c.lists.chain|
    ensures Ok(c.(lists := PopFree(c.lists)), c.lists.freelist)
    ensures SameContent(c, NIL, c.(lists := PopFree(c.lists)), c.lists.freelist)
  {
    hide Ok, ChainsOk, HashOk, Logical, SlotOf;
    OkSizes(c, NIL);
    PopFreeOk(c.lists);
    var i := c.lists.freelist;
    OkAt(c, NIL, i);
    var c' := c.(lists := PopFree(c.lists));
    OkStep(c, NIL, c', i, i);
    ContentStep(c, NIL, c', i, i);
  }

  lemma Heads(l: Chains)
    requires ChainsOk(l)
    ensures l.freelist == First(l.frees) && l.clean.head == First(l.cleans) && l.dirty.head == First(l.dirties)
  {}

  ghost function EvictedClean(c: Cache, i: nat): Cache
    requires |c.lists.cleans| > 0 && i < |c.bufs| && i < |c.lists.chain| && i < |c.hash.bucket|
    requires InBucket(c.hash, i, SlotOf(c.bufs[i].blkno)) && |c.hash.table| == HASHSIZE
  {
    c.(lists := UnlinkClean(c.lists, i, 0), hash := WithoutBuffer(c.hash, i, SlotOf(c.bufs[i].blkno)))
  }

  /** get_new_buffer from the head of the clean list. */
  lemma EvictCleanOk(c: Cache)
    requires Ok(c, NIL) && c.lists.clean.head != NIL
    ensures |c.lists.cleans| > 0 && c.lists.clean.head == c.lists.cleans[0] < |c.bufs|
    ensures var i := c.lists.cleans[0];
            && i < |c.lists.chain| && i < |c.hash.bucket| && |c.hash.table| == HASHSIZE
            && InBucket(c.hash, i, SlotOf(c.bufs[i].blkno))
            && Ok(EvictedClean(c, i), i) && SameContent(c, NIL, EvictedClean(c, i), i)
  {
    hide Ok, ChainsOk, HashOk, Logical, WithoutBuffer, SlotOf, UnlinkClean;
    OkSizes(c, NIL);
    Heads(c.lists);
    UnlinkCleanOk(c.lists, 0);
    var i := c.lists.cleans[0];
    OkAt(c, NIL, i);
    HashedAt(c, NIL, i);
    UniqueAt(c, NIL, i);
    WithoutBufferOk(c.hash, i, SlotOf(c.bufs[i].blkno));
    UnlinkCleanElse(c.lists, i, 0);
    var c' := EvictedClean(c, i);
    OkStep(c, NIL, c', i, i);
    Dropped(c, NIL, c', i, i);
  }

  ghost function EvictedDirty(c: Cache, i: nat): Cache
    requires |c.lists.dirties| > 0 && i < |c.bufs| && i < |c.lists.chain| && i < |c.hash.bucket|
    requires InBucket(c.hash, i, SlotOf(c.bufs[i].blkno)) && |c.hash.table| == HASHSIZE && c.bufs[i].blkno < |c.device|
  {
    c.(bufs := c.bufs[i := c.bufs[i].(state := Locked)],
       lists := UnlinkDirty(c.lists, i, 0), hash := WithoutBuffer(c.hash, i, SlotOf(c.bufs[i].blkno)),
       device := c.device[c.bufs[i].blkno := c.bufs[i].data])
  }

  /** get_new_buffer from the head of the dirty list, written out first. */
  lemma EvictDirtyOk(c: Cache)
    requires Ok(c, NIL) && c.lists.dirty.head != NIL
    ensures |c.lists.dirties| > 0 && c.lists.dirty.head == c.lists.dirties[0] < |c.bufs|
    ensures var i := c.lists.dirties[0];
            && i < |c.lists.chain| && i < |c.hash.bucket| && |c.hash.table| == HASHSIZE && c.bufs[i].blkno < |c.device|
            && InBucket(c.hash, i, SlotOf(c.bufs[i].blkno))
            && Ok(EvictedDirty(c, i), i) && SameContent(c, NIL, EvictedDirty(c, i), i)
  {
    hide Ok, ChainsOk, HashOk, Logical, WithoutBuffer, SlotOf, UnlinkDirty;
    OkSizes(c, NIL);
    Heads(c.lists);
    UnlinkDirtyOk(c.lists, 0);
    var i := c.lists.dirties[0];
    OkAt(c, NIL, i);
    HashedAt(c, NIL, i);
    UniqueAt(c, NIL, i);
    WithoutBufferOk(c.hash, i, SlotOf(c.bufs[i].blkno));
    UnlinkDirtyElse(c.lists, i, 0);
    var c' := EvictedDirty(c, i);
    OkStep(c, NIL, c', i, i);
    Dropped(c, NIL, c', i, i);
  }

  function Installed(c: Cache, i: nat, b: nat, data: Block): Cache
    requires i < |c.bufs| && i < |c.hash.bucket| && |c.hash.table| == |c.hash.buckets| == HASHSIZE
  {
    c.(bufs := c.bufs[i := Buf(Locked, 1, b, data)], hash := Hashed(c.hash, SlotOf(b), i))
  }

  /** A new buffer is hashed under an uncached block and locked. */
  lemma InstallOk(c: Cache, i: nat, b: nat, data: Block)
    requires Ok(c, i) && i < |c.bufs| && b < |c.device| && |data| == c.size
    requires forall j :: !Caches(c, i, j, b)
    ensures i < |c.hash.bucket| && |c.hash.table| == |c.hash.buckets| == HASHSIZE
    ensures Ok(Installed(c, i, b, data), NIL)
    ensures forall b' :: 0 <= b' < |c.device| ==>
              Logical(Installed(c, i, b, data), NIL, b') == if b' == b then data else Logical(c, i, b')
  {
    hide Ok, ChainsOk, HashOk, Logical, Hashed, SlotOf;
    OkAt(c, i, i);
    OkSizes(c, i);
    TableSizes(c.hash, b);
    HoleUnhashed(c, i);
    HashInsertOk(c.hash, SlotOf(b), i);
    var c' := Installed(c, i, b, data);
    InsertedMembers(c.hash, SlotOf(b), i);
    OkStep(c, i, c', NIL, i);
    OkAt(c', NIL, i);
    LogicalHit(c', NIL, i);
    forall b' | 0 <= b' < |c.device| && b' != b ensures Logical(c', NIL, b') == Logical(c, i, b') {
      LogicalElsewhere(c, i, c', NIL, i, b');
    }
  }

  lemma TableSizes(h: Hash, b: nat)
    requires HashOk(h)
    ensures |h.table| == |h.buckets| == HASHSIZE && SlotOf(b) < HASHSIZE
  {}

  lemma HoleUnhashed(c: Cache, i: nat)
    requires Ok(c, i) && i < |c.bufs|
    ensures forall t :: !InBucket(c.hash, i, t)
    ensures |c.hash.buckets| == HASHSIZE
    ensures forall t :: 0 <= t < HASHSIZE ==> i !in c.hash.buckets[t]
  {
    assert PlacedAt(c, i, i);
    forall t ensures !InBucket(c.hash, i, t) {}
    forall t | 0 <= t < HASHSIZE ensures i !in c.hash.buckets[t] { assert !InBucket(c.hash, i, t); }
  }

  lemma InsertedMembers(h: Hash, s: nat, i: nat)
    requires |h.table| == |h.buckets| == HASHSIZE && s < HASHSIZE && i < |h.bucket|
    requires forall t :: !InBucket(h, i, t)
    ensures forall t, j :: j != i ==> (InBucket(Hashed(h, s, i), j, t) <==> InBucket(h, j, t))
    ensures forall t :: InBucket(Hashed(h, s, i), i, t) <==> t == s
  {
    hide Pushed;
    forall t ensures InBucket(Hashed(h, s, i), i, t) <==> t == s {
      if t != s { assert !InBucket(h, i, t); }
    }
  }

  // ------------------------------------------------------------- the program

  /** The state of a buffer once nobody holds it any more. */
  function Idle(s: State): State {
    match s
    case Locked => Clean
    case Updated => Dirty
    case Invalid => Free
    case _ => s
  }

  /** All buckets are proper lists again, and exactly buffer i is in none. */
  ghost predicate Removed(h: Hash, h': Hash, i: nat) {
    HashOk(h') && forall j, s :: InBucket(h', j, s) <==> InBucket(h, j, s) && j != i
  }

  lemma RemovedOk(h: Hash, i: nat, slot: nat)
    requires HashOk(h) && slot < HASHSIZE && i < |h.bucket| && InBucket(h, i, slot)
    ensures |h.table| == HASHSIZE && Removed(h, WithoutBuffer(h, i, slot), i)
  {
    hide Unhashed, Chain;
    UnhashOk(h, slot, Position(h, i, slot));
    UnhashedBuckets(h, slot, i, Position(h, i, slot));
    forall s | InBucket(h, i, s) ensures s == slot {
      if s != slot { OtherBucket(h, slot, s); }
    }
  }

  lemma UnhashedBuckets(h: Hash, s: nat, i: nat, k: nat)
    requires s < |h.table| && s < |h.buckets| && i < |h.bucket| && k < |h.buckets[s]|
    ensures Unhashed(h, s, i, k).buckets == h.buckets[s := Without(h.buckets[s], k)]
  {}

  /** All buckets are proper lists, and buffer i has joined the given one. */
  ghost predicate Inserted(h: Hash, h': Hash, i: nat, slot: nat) {
    HashOk(h') && forall j, s :: InBucket(h', j, s) <==> InBucket(h, j, s) || (j == i && s == slot)
  }

  lemma InsertedOk(h: Hash, i: nat, slot: nat)
    requires HashOk(h) && slot < HASHSIZE && i < |h.bucket| && forall s :: !InBucket(h, i, s)
    ensures |h.table| == |h.buckets| == HASHSIZE && Inserted(h, Hashed(h, slot, i), i, slot)
  {
    hide Chain, Pushed;
    forall t | 0 <= t < HASHSIZE ensures i !in h.buckets[t] { assert !InBucket(h, i, t); }
    HashInsertOk(h, slot, i);
  }

  predicate Unsaved(s: State) {
    s.Dirty? || s.Updated?
  }

  /** Buffer i was locked once more for block b; nobody else's buffer changed.
      An invalid buffer comes back zeroed; otherwise all content is kept. */
  ghost predicate Acquired(c: Cache, c': Cache, i: nat, b: nat) {
    && i < |c.bufs| == |c'.bufs| && b < |c.device| && c'.device == c.device && c'.size == c.size
    && Caches(c, NIL, i, b)
    && (forall j :: 0 <= j < |c.bufs| && j != i ==> c'.bufs[j] == c.bufs[j])
    && c'.bufs[i].blkno == b && c'.bufs[i].locks == c.bufs[i].locks + 1
    && c'.bufs[i].state == (if Unsaved(c.bufs[i].state) then Updated else Locked)
    && c'.bufs[i].data == (if c.bufs[i].state.Invalid? then ZeroBytes(c.size) else c.bufs[i].data)
    && (if c.bufs[i].state.Invalid? then SameContentBut(c, c', b) else SameContent(c, NIL, c', NIL))
  }

  class BufferPool {
    const size: nat
    var bufs: seq<Buf>
    var bucket: seq<Link>
    var chain: seq<Link>
    var table: seq<int>
    var clean: Ends
    var dirty: Ends
    var freelist: int
    var device: seq<Block>
    ghost var frees: seq<nat>
    ghost var cleans: seq<nat>
    ghost var dirties: seq<nat>
    ghost var buckets: seq<seq<nat>>

    ghost function State(): Cache
      reads this
    {
      Cache(size, bufs, Chains(chain, freelist, clean, dirty, frees, cleans, dirties), Hash(bucket, table, buckets),
        device)
    }

    ghost predicate Valid()
      reads this
    {
      Ok(State(), NIL)
    }

    /** The content of a block as the rest of the file system sees it. */
    ghost function Content(b: nat): Block
      requires b < |device|
      reads this
    {
      Logical(State(), NIL, b)
    }

    /** Take a buffer out of the chain it is in. */
    method Unchain(i: nat)
      requires i < |chain|
      modifies this`chain
      ensures chain == Unlinked(old(chain), i)
    {
      var n, p := chain[i].next, chain[i].prev;
      if 0 <= n < |chain| { chain := chain[n := chain[n].(prev := p)]; }
      if 0 <= p < |chain| { chain := chain[p := chain[p].(next := n)]; }
      chain := chain[i := Link(NIL, NIL)];
    }

    method DropFromClean(i: nat)
      requires i < |chain|
      modifies this`chain, this`clean
      ensures chain == Unlinked(old(chain), i) && clean == EndsWithout(old(chain), old(clean), i)
    {
      hide Unlinked;
      if clean.head == i { clean := clean.(head := chain[i].next); }
      if clean.tail == i { clean := clean.(tail := chain[i].prev); }
      Unchain(i);
    }

    method DropFromDirty(i: nat)
      requires i < |chain|
      modifies this`chain, this`dirty
      ensures chain == Unlinked(old(chain), i) && dirty == EndsWithout(old(chain), old(dirty), i)
    {
      hide Unlinked;
      if dirty.head == i { dirty := dirty.(head := chain[i].next); }
      if dirty.tail == i { dirty := dirty.(tail := chain[i].prev); }
      Unchain(i);
    }

    /** remove_from_hashtable */
    method RemoveFromHashtable(i: nat)
      requires i < |bufs| && i < |bucket| && |table| == HASHSIZE
      requires InBucket(State().hash, i, SlotOf(bufs[i].blkno))
      modifies this`bucket, this`table, this`buckets
      ensures State().hash == WithoutBuffer(old(State().hash), i, SlotOf(bufs[i].blkno))
      ensures HashOk(old(State().hash)) ==> Removed(old(State().hash), State().hash, i)
    {
      hide HashOk, Removed;
      ghost var h := State().hash;
      var slot := SlotOf(bufs[i].blkno);
      var n, p := bucket[i].next, bucket[i].prev;
      if 0 <= n < |bucket| { bucket := bucket[n := bucket[n].(prev := p)]; }
      if 0 <= p < |bucket| { bucket := bucket[p := bucket[p].(next := n)]; }
      if table[slot] == i { table := table[slot := n]; }
      bucket := bucket[i := Link(NIL, NIL)];
      buckets := buckets[slot := Without(buckets[slot], Position(h, i, slot))];
      assert h.table[slot := h.table[slot]] == h.table;
      if HashOk(h) { RemovedOk(h, i, slot); }
    }

    /** insert_into_hashtable */
    method InsertIntoHashtable(i: nat)
      requires i < |bufs| && i < |bucket| && |table| == |buckets| == HASHSIZE
      modifies this`bucket, this`table, this`buckets
      ensures State().hash == Hashed(old(State().hash), SlotOf(bufs[i].blkno), i)
      ensures HashOk(old(State().hash)) && (forall s :: !InBucket(old(State().hash), i, s)) ==>
                Inserted(old(State().hash), State().hash, i, SlotOf(bufs[i].blkno))
    {
      hide HashOk, Inserted;
      ghost var h := State().hash;
      var slot := SlotOf(bufs[i].blkno);
      var head := table[slot];
      if 0 <= head < |bucket| { bucket := bucket[head := bucket[head].(prev := i)]; }
      bucket := bucket[i := Link(head, NIL)];
      table := table[slot := i];
      buckets := buckets[slot := [i] + buckets[slot]];
      if HashOk(h) && forall s :: !InBucket(h, i, s) { InsertedOk(h, i, slot); }
    }

    /** The bucket walk of lookup_buffer. */
    method FindBuffer(blkno: nat) returns (r: int)
      requires Valid()
      ensures r == NIL ==> forall j :: !Caches(State(), NIL, j, blkno)
      ensures r != NIL ==> Caches(State(), NIL, r, blkno)
    {
      hide ChainsOk, Logical;
      ghost var ids := buckets[SlotOf(blkno)];
      ghost var k := 0;
      assert Chain(bucket, table[SlotOf(blkno)], ids);
      BucketHolds(State(), blkno);
      r := table[SlotOf(blkno)];
      while r != NIL && bufs[r].blkno != blkno
        invariant 0 <= k <= |ids| && r == (if k < |ids| then ids[k] else NIL)
        invariant forall j :: 0 <= j < k ==> bufs[ids[j]].blkno != blkno
        decreases |ids| - k
      {
        r := bucket[r].next;
        k := k + 1;
      }
    }

    /** lookup_buffer: the cached buffer, locked once more, or NIL. */
    method LookupBuffer(blkno: nat) returns (r: int)
      requires Valid() && blkno < |device|
      modifies this
      ensures Valid()
      ensures r == NIL ==> State() == old(State()) && forall j :: !Caches(State(), NIL, j, blkno)
      ensures r != NIL ==> 0 <= r < |bufs| && Acquired(old(State()), State(), r, blkno)
    {
      hide Ok, ChainsOk, HashOk, Logical, PlacedAt, SlotOf;
      r := FindBuffer(blkno);
      if r == NIL {
        return;
      }
      ghost var c := State();
      StateOf(c, NIL, r);
      match bufs[r].state {
        case Clean =>
          LockClean(r);
        case Dirty =>
          LockDirty(r);
        case Locked =>
          Touch(r, bufs[r].(locks := bufs[r].locks + 1));
          Kept(c, State(), blkno);
        case Updated =>
          Touch(r, bufs[r].(locks := bufs[r].locks + 1));
          Kept(c, State(), blkno);
        case Invalid =>
          Touch(r, bufs[r].(state := Locked, locks := bufs[r].locks + 1, data := ZeroBytes(size)));
        case Free =>
          assert false;  // "free buffer in cache"
        case Reading =>
          assert false;  // the Linux build cannot wait
        case Writing =>
          assert false;
      }
    }

    /** Replace a locked buffer by another locked version of itself. */
    method Touch(i: nat, b': Buf)
      requires Valid() && i < |bufs| && bufs[i].locks > 0
      requires b'.locks > 0 && b'.blkno == bufs[i].blkno && |b'.data| == size
      requires b'.state.Locked? || b'.state.Updated? || b'.state.Invalid?
      modifies this`bufs
      ensures Valid() && bufs == old(bufs)[i := b']
      ensures b'.blkno < |device| && SameContentBut(old(State()), State(), b'.blkno)
      ensures Content(b'.blkno) == if b'.state.Invalid? then device[b'.blkno] else b'.data
      ensures old(Content(b'.blkno)) == if old(bufs)[i].state.Invalid? then device[b'.blkno] else old(bufs)[i].data
    {
      hide Ok, ChainsOk, HashOk, Logical;
      Retouch(State(), i, b');
      OkAt(State(), NIL, i);
      LogicalHit(State(), NIL, i);
      bufs := bufs[i := b'];
    }

    method LockClean(i: nat)
      requires Valid() && i < |bufs| && bufs[i].state.Clean?
      modifies this
      ensures Valid() && Acquired(old(State()), State(), i, old(bufs[i].blkno))
    {
      hide Ok, ChainsOk, HashOk, Logical, Unlinked, EndsWithout, Without, SlotOf;
      ghost var c := State();
      OkAt(c, NIL, i);
      ghost var k :| 0 <= k < |cleans| && cleans[k] == i;
      TakeCleanOk(c, k);
      DropFromClean(i);
      bufs := bufs[i := bufs[i].(state := Locked, locks := bufs[i].locks + 1)];
      cleans := Without(cleans, k);
      assert State() == TakenFromClean(c, i, k);
    }

    method LockDirty(i: nat)
      requires Valid() && i < |bufs| && bufs[i].state.Dirty?
      modifies this
      ensures Valid() && Acquired(old(State()), State(), i, old(bufs[i].blkno))
    {
      hide Ok, ChainsOk, HashOk, Logical, Unlinked, EndsWithout, Without, SlotOf;
      ghost var c := State();
      OkAt(c, NIL, i);
      ghost var k :| 0 <= k < |dirties| && dirties[k] == i;
      TakeDirtyOk(c, k);
      DropFromDirty(i);
      bufs := bufs[i := bufs[i].(state := Updated, locks := bufs[i].locks + 1)];
      dirties := Without(dirties, k);
      assert State() == TakenFromDirty(c, i, k);
    }

    /** init_buffer_pool: every buffer is on the free list. */
    constructor (poolsize: nat, size: nat, device: seq<Block>)
      requires forall b :: 0 <= b < |device| ==> |device[b]| == size
      ensures Valid() && this.size == size && this.device == device && |bufs| == poolsize
      ensures forall i :: 0 <= i < poolsize ==> bufs[i].state.Free?
      ensures forall b :: 0 <= b < |device| ==> Content(b) == device[b]
    {
      this.size, this.device := size, device;
      bufs := seq(poolsize, i => Buf(Free, 0, 0, ZeroBytes(size)));
      bucket := seq(poolsize, i => Link(NIL, NIL));
      chain := seq(poolsize, i => Link(if i == poolsize - 1 then NIL else i + 1, NIL));
      table := seq(HASHSIZE, s => NIL);
      clean, dirty := Ends(NIL, NIL), Ends(NIL, NIL);
      freelist := if poolsize == 0 then NIL else 0;
      frees := seq<nat>(poolsize, i requires 0 <= i => i);
      cleans, dirties := [], [];
      buckets := seq(HASHSIZE, s => []);
      new;
      FreshPool(State(), poolsize);
    }

    /** get_new_buffer: from the free list, else the least recently used clean
        buffer, else the oldest dirty one, written out first. NIL (the program
        stops) exactly if every buffer is locked. */
    method GetNewBuffer() returns (r: int)
      requires Valid()
      modifies this
      ensures r == NIL <==> forall i :: 0 <= i < |old(bufs)| ==> old(bufs)[i].locks > 0
      ensures r == NIL ==> State() == old(State())
      ensures r != NIL ==>
                && 0 <= r < |bufs| == |old(bufs)| && old(bufs)[r].locks == 0
                && r == First(if old(frees) != [] then old(frees) else if old(cleans) != [] then old(cleans)
                   else old(dirties))
                && Ok(State(), r) && SameContent(old(State()), NIL, State(), r)
                && |device| == |old(device)|
                && (forall j :: 0 <= j < |bufs| && j != r ==> bufs[j] == old(bufs)[j])
    {
      hide Ok, ChainsOk, HashOk, Logical, PlacedAt, SlotOf, WithoutBuffer, Unlinked, EndsWithout, Without, PopFree,
           Removed, Caches;
      ghost var c := State();
      OkSizes(c, NIL);
      Heads(c.lists);
      UnlockedListed(c);
      if freelist != NIL {
        PopFreeListOk(c);
        ListedUnlocked(c, freelist);
        r := freelist;
        TakeFree();
      } else if clean.head != NIL {
        EvictCleanOk(c);
        r := clean.head;
        ListedUnlocked(c, r);
        DropFromClean(r);
        cleans := Without(cleans, 0);
        RemoveFromHashtable(r);
        assert State() == EvictedClean(c, r);
      } else if dirty.head != NIL {
        EvictDirtyOk(c);
        r := dirty.head;
        ListedUnlocked(c, r);
        DropFromDirty(r);
        dirties := Without(dirties, 0);
        device := device[bufs[r].blkno := bufs[r].data];
        bufs := bufs[r := bufs[r].(state := Locked)];
        RemoveFromHashtable(r);
        assert State() == EvictedDirty(c, r);
      } else {
        r := NIL;
      }
    }

    method TakeFree()
      requires 0 <= freelist < |chain| && |frees| > 0
      modifies this`chain, this`freelist, this`frees
      ensures State() == old(State()).(lists := PopFree(old(State()).lists))
    {
      var i := freelist;
      freelist := chain[i].next;
      chain := chain[i := Link(NIL, NIL)];
      frees := frees[1..];
    }

    /** Hash a handed-over buffer under a block and lock it with this data. */
    method Install(i: nat, blkno: nat, data: Block)
      requires i < |bufs| && Ok(State(), i) && blkno < |device| && |data| == size
      requires forall j :: !Caches(State(), i, j, blkno)
      modifies this`bufs, this`bucket, this`table, this`buckets
      ensures Valid() && bufs == old(bufs)[i := Buf(Locked, 1, blkno, data)]
      ensures forall b :: 0 <= b < |device| ==>
                Content(b) == if b == blkno then data else Logical(old(State()), i, b)
    {
      hide Ok, ChainsOk, HashOk, Logical, PlacedAt, SlotOf, Hashed;
      ghost var c := State();
      InstallOk(c, i, blkno, data);
      bufs := bufs[i := bufs[i].(blkno := blkno)];
      InsertIntoHashtable(i);
      bufs := bufs[i := bufs[i].(data := data, state := Locked, locks := 1)];
      InstalledIs(c, State(), i, blkno, data, old(bufs)[i].locks);
    }

    /** get_buffer: a locked buffer with the block's content, which this does
        not change, exactly unless the block's cached copy is marked invalid and
        the device's is not zero: then zeros are handed out and become the
        content. Every other locked buffer is left alone. NIL (the program stops)
        exactly if the block is not cached and all buffers are locked. */
    method GetBuffer(blkno: nat) returns (r: int)
      requires Valid() && blkno < |device|
      modifies this
      ensures r == NIL <==> (forall j :: !Caches(old(State()), NIL, j, blkno))
                            && forall i :: 0 <= i < |old(bufs)| ==> old(bufs)[i].locks > 0
      ensures r == NIL ==> State() == old(State())
      ensures r != NIL ==> 0 <= r && Granted(old(State()), State(), r, blkno)
      ensures r != NIL ==> bufs[r].data == Content(blkno) && device[blkno] == old(device)[blkno]
      ensures r != NIL && Revived(old(State()), blkno) ==> bufs[r].data == ZeroBytes(size)
      ensures r != NIL ==> (bufs[r].data == old(Content(blkno)) <==>
                            !Revived(old(State()), blkno) || old(device)[blkno] == ZeroBytes(size))
      ensures r != NIL ==> forall b :: 0 <= b < |device| && b != blkno ==> Content(b) == old(Content(b))
    {
      hide Ok, ChainsOk, HashOk, Logical, PlacedAt, SlotOf;
      ghost var c := State();
      r := LookupBuffer(blkno);
      if r != NIL {
        AcquiredGranted(c, State(), r, blkno);
        return;
      }
      r := GetNewBuffer();
      if r == NIL {
        return;
      }
      StillUncached(c, State(), r, blkno);
      NotRevived(c, blkno);
      LogicalMiss(c, NIL, blkno);
      LogicalMiss(State(), r, blkno);
      OkSizes(State(), r);
      Install(r, blkno, device[blkno]);
    }

    /** alloc_buffer: the same, but the buffer is zeroed instead of read. */
    method AllocBuffer(blkno: nat) returns (r: int)
      requires Valid() && blkno < |device|
      modifies this
      ensures r == NIL <==> (forall j :: !Caches(old(State()), NIL, j, blkno))
                            && forall i :: 0 <= i < |old(bufs)| ==> old(bufs)[i].locks > 0
      ensures r == NIL ==> State() == old(State())
      ensures r != NIL ==> 0 <= r && Granted(old(State()), State(), r, blkno) && bufs[r].data == ZeroBytes(size)
      ensures r != NIL ==> forall b :: 0 <= b < |device| ==>
                Content(b) == if b == blkno then ZeroBytes(size) else old(Content(b))
    {
      hide Ok, ChainsOk, HashOk, Logical, PlacedAt, SlotOf;
      ghost var c := State();
      r := LookupBuffer(blkno);
      if r != NIL {
        AcquiredGranted(c, State(), r, blkno);
        Touch(r, bufs[r].(data := ZeroBytes(size)));
        return;
      }
      r := GetNewBuffer();
      if r == NIL {
        return;
      }
      StillUncached(c, State(), r, blkno);
      Install(r, blkno, ZeroBytes(size));
    }

    /** The holder of a lock writes new data into the buffer. */
    method Fill(i: nat, data: Block)
      requires Valid() && i < |bufs| && bufs[i].locks > 0 && |data| == size
      modifies this`bufs
      ensures Valid() && bufs == old(bufs)[i := old(bufs)[i].(data := data)] && bufs[i].blkno < |device|
      ensures forall b :: 0 <= b < |device| ==>
                Content(b) == if b == bufs[i].blkno && !bufs[i].state.Invalid? then data else old(Content(b))
    {
      hide Ok, ChainsOk, HashOk, Logical, PlacedAt;
      StateOf(State(), NIL, i);
      Touch(i, bufs[i].(data := data));
    }

    method MarkBufferUpdated(i: nat)
      requires Valid() && i < |bufs| && bufs[i].locks > 0
      modifies this`bufs
      ensures Valid() && bufs == old(bufs)[i := old(bufs)[i].(state := Updated)] && bufs[i].blkno < |device|
      ensures forall b :: 0 <= b < |device| ==>
                Content(b) == if b == bufs[i].blkno then bufs[i].data else old(Content(b))
    {
      hide Ok, ChainsOk, HashOk, Logical, PlacedAt;
      StateOf(State(), NIL, i);
      if bufs[i].state.Locked? || bufs[i].state.Invalid? {
        Touch(i, bufs[i].(state := Updated));
      } else {
        Touch(i, bufs[i]);
      }
    }

    method MarkBufferInvalid(i: nat)
      requires Valid() && i < |bufs| && bufs[i].locks > 0
      modifies this`bufs
      ensures Valid() && bufs == old(bufs)[i := old(bufs)[i].(state := Invalid)] && bufs[i].blkno < |device|
      ensures forall b :: 0 <= b < |device| ==>
                Content(b) == if b == bufs[i].blkno then device[b] else old(Content(b))
    {
      hide Ok, ChainsOk, HashOk, Logical, PlacedAt;
      StateOf(State(), NIL, i);
      if bufs[i].state.Locked? || bufs[i].state.Updated? {
        Touch(i, bufs[i].(state := Invalid));
      } else {
        Touch(i, bufs[i]);
      }
    }

    /** release_buffer. A holder that changed the data, or got a zeroed buffer,
        marks it updated or invalid before the last release: exactly then no content
        is lost. */
    method ReleaseBuffer(i: nat)
      requires Valid() && i < |bufs| && bufs[i].locks > 0
      modifies this
      ensures Valid() <==> Marked(old(State()), i)
      ensures device == old(device) && |bufs| == |old(bufs)|
      ensures bufs[i].locks == old(bufs)[i].locks - 1 && bufs[i].blkno == old(bufs)[i].blkno
      ensures bufs[i].state == if old(bufs)[i].locks > 1 then old(bufs)[i].state else Idle(old(bufs)[i].state)
      ensures cleans == if bufs[i].state.Clean? then old(cleans) + [i] else old(cleans)
      ensures dirties == if bufs[i].state.Dirty? then old(dirties) + [i] else old(dirties)
      ensures frees == if bufs[i].state.Free? then [i] + old(frees) else old(frees)
      ensures forall j :: 0 <= j < |bufs| && j != i ==> bufs[j] == old(bufs)[j]
      ensures Marked(old(State()), i) ==> forall b :: 0 <= b < |device| ==> Content(b) == old(Content(b))
    {
      hide Ok, ChainsOk, HashOk, Logical, PlacedAt, SlotOf, Appended, EndsWith, WithoutBuffer;
      ghost var c := State();
      StateOf(c, NIL, i);
      OkSizes(c, NIL);
      if bufs[i].locks > 1 {
        Touch(i, bufs[i].(locks := bufs[i].locks - 1));
        return;
      }
      match bufs[i].state {
        case Locked =>
          if Marked(c, i) { PutOnCleanOk(c, i); }
          ToClean(i);
          if !Marked(c, i) { CleanDiffers(State(), i); }
        case Updated =>
          PutOnDirtyOk(c, i);
          ToDirty(i);
        case Invalid =>
          PutOnFreeOk(c, i);
          ToFree(i);
        case Free =>
          assert false;  // "invalid buffer state"
        case Clean =>
          assert false;
        case Dirty =>
          assert false;
        case Reading =>
          assert false;
        case Writing =>
          assert false;
      }
    }

    method ToClean(i: nat)
      requires i < |bufs| && i < |chain|
      modifies this`bufs, this`chain, this`clean, this`cleans
      ensures State() == PutOnClean(old(State()), i)
    {
      hide Appended, EndsWith;
      bufs := bufs[i := bufs[i].(state := Clean, locks := 0)];
      AddToClean(i);
    }

    method ToDirty(i: nat)
      requires i < |bufs| && i < |chain|
      modifies this`bufs, this`chain, this`dirty, this`dirties
      ensures State() == PutOnDirty(old(State()), i)
    {
      hide Appended, EndsWith;
      bufs := bufs[i := bufs[i].(state := Dirty, locks := 0)];
      AddToDirty(i);
    }

    method ToFree(i: nat)
      requires i < |bufs| && i < |chain| && i < |bucket| && |table| == HASHSIZE
      requires InBucket(State().hash, i, SlotOf(bufs[i].blkno))
      modifies this`bufs, this`chain, this`freelist, this`frees, this`bucket, this`table, this`buckets
      ensures State() == PutOnFree(old(State()), i)
    {
      hide SlotOf, WithoutBuffer;
      RemoveFromHashtable(i);
      bufs := bufs[i := bufs[i].(state := Free, locks := 0)];
      chain := chain[i := Link(freelist, NIL)];
      freelist := i;
      frees := [i] + frees;
    }

    method AddToClean(i: nat)
      requires i < |chain|
      modifies this`chain, this`clean, this`cleans
      ensures State().lists == AppendClean(old(State()).lists, i)
    {
      var tail := clean.tail;
      chain := chain[i := Link(NIL, tail)];
      if 0 <= tail < |chain| { chain := chain[tail := chain[tail].(next := i)]; }
      clean := Ends(if clean.head == NIL then i else clean.head, i);
      cleans := cleans + [i];
    }

    method AddToDirty(i: nat)
      requires i < |chain|
      modifies this`chain, this`dirty, this`dirties
      ensures State().lists == AppendDirty(old(State()).lists, i)
    {
      var tail := dirty.tail;
      chain := chain[i := Link(NIL, tail)];
      if 0 <= tail < |chain| { chain := chain[tail := chain[tail].(next := i)]; }
      dirty := Ends(if dirty.head == NIL then i else dirty.head, i);
      dirties := dirties + [i];
    }

    /** invalidate_buffer: pending data of the block is forgotten. */
    method InvalidateBuffer(blkno: nat)
      requires Valid() && blkno < |device|
      modifies this
      ensures Valid() && device == old(device) && |bufs| == |old(bufs)|
      ensures forall b :: 0 <= b < |device| ==> Content(b) == if b == blkno then device[b] else old(Content(b))
    {
      hide Ok, ChainsOk, HashOk, Logical, PlacedAt, SlotOf;
      ghost var c := State();
      var r := LookupBuffer(blkno);
      if r == NIL {
        LogicalMiss(c, NIL, blkno);
        return;
      }
      AcquiredGranted(c, State(), r, blkno);
      MarkBufferInvalid(r);
      ReleaseBuffer(r);
    }

    /** flush_buffers: content is unchanged, and afterwards the device holds the
        content of every block that no locked buffer caches. */
    method FlushBuffers()
      requires Valid()
      modifies this
      ensures Valid() && |device| == |old(device)| && |bufs| == |old(bufs)|
      ensures forall b :: 0 <= b < |device| ==> Content(b) == old(Content(b))
      ensures forall b :: 0 <= b < |device| && (forall i :: Caches(State(), NIL, i, b) ==> bufs[i].locks == 0) ==>
                device[b] == Content(b)
      ensures forall i :: 0 <= i < |bufs| ==> bufs[i].locks == old(bufs)[i].locks
      ensures forall i :: 0 <= i < |bufs| && old(bufs)[i].locks > 0 ==> bufs[i] == old(bufs)[i]
    {
      hide Ok, ChainsOk, HashOk, Logical, PlacedAt, SlotOf;
      ghost var c0 := State();
      SameContentRefl(c0);
      while dirty.head != NIL
        invariant Valid() && |bufs| == |c0.bufs| && SameContent(c0, NIL, State(), NIL)
        invariant forall i :: 0 <= i < |bufs| && c0.bufs[i].locks > 0 ==> bufs[i] == c0.bufs[i]
        invariant forall i :: 0 <= i < |bufs| ==> bufs[i].locks == c0.bufs[i].locks
        decreases |dirties|
      {
        FlushOne();
      }
      FlushedAll(State());
    }

    method FlushOne()
      requires Valid() && dirty.head != NIL
      modifies this
      ensures Valid() && |bufs| == |old(bufs)| && SameContent(old(State()), NIL, State(), NIL)
      ensures |dirties| == |old(dirties)| - 1
      ensures forall i :: 0 <= i < |bufs| && old(bufs)[i].locks > 0 ==> bufs[i] == old(bufs)[i]
      ensures forall i :: 0 <= i < |bufs| ==> bufs[i].locks == old(bufs)[i].locks
    {
      hide Ok, ChainsOk, HashOk, Logical, PlacedAt, SlotOf, Unlinked, EndsWithout, AppendClean;
      ghost var c := State();
      OkSizes(c, NIL);
      Heads(c.lists);
      FlushOneOk(c, 0);
      var i := dirty.head;
      ListedUnlocked(c, i);
      DropFromDirty(i);
      dirties := Without(dirties, 0);
      device := device[bufs[i].blkno := bufs[i].data];
      bufs := bufs[i := bufs[i].(state := Clean)];
      UnlinkedSize(c.lists.chain, i);
      AddToClean(i);
      assert State() == Flushed(c, i, 0);
    }
  }

  /** Get a block, mark it invalid and get it again before the release: the second
      holder sees zeros, though the device holds something else. */
  method GetInvalidAgain(pool: BufferPool, blkno: nat) returns (r: int)
    requires pool.Valid() && blkno < |pool.device| && pool.device[blkno] != ZeroBytes(pool.size)
    requires exists i :: 0 <= i < |pool.bufs| && pool.bufs[i].locks == 0
    modifies pool
    ensures pool.Valid() && 0 <= r < |pool.bufs| && pool.bufs[r].blkno == blkno < |pool.device|
    ensures pool.device[blkno] != ZeroBytes(pool.size)
    ensures pool.bufs[r].data == pool.Content(blkno) == ZeroBytes(pool.size)
  {
    hide Ok, ChainsOk, HashOk, Logical, PlacedAt, SlotOf, Caches, Revived;
    var first := pool.GetBuffer(blkno);
    pool.MarkBufferInvalid(first);
    NowRevived(pool.State(), first);
    r := pool.GetBuffer(blkno);
  }

  /** The last holder of buffer i leaves it as it is on the device, or marked. */
  ghost predicate Marked(c: Cache, i: nat) {
    && i < |c.bufs|
    && (c.bufs[i].locks == 1 && c.bufs[i].state.Locked? ==>
          c.bufs[i].blkno < |c.device| && c.bufs[i].data == c.device[c.bufs[i].blkno])
  }

  lemma CleanDiffers(c: Cache, i: nat)
    requires i < |c.bufs| && c.bufs[i].state.Clean?
    requires c.bufs[i].blkno < |c.device| ==> c.bufs[i].data != c.device[c.bufs[i].blkno]
    ensures !Ok(c, NIL)
  {
    hide ChainsOk, HashOk;
    if Ok(c, NIL) { OkAt(c, NIL, i); }
  }

  lemma NowRevived(c: Cache, i: nat)
    requires Ok(c, NIL) && i < |c.bufs| && c.bufs[i].locks > 0 && c.bufs[i].state.Invalid?
    ensures Revived(c, c.bufs[i].blkno) && Caches(c, NIL, i, c.bufs[i].blkno)
  {
    hide Ok, ChainsOk, HashOk, Logical;
    OkAt(c, NIL, i);
    OkSizes(c, NIL);
  }

  lemma SameContentRefl(c: Cache)
    ensures SameContent(c, NIL, c, NIL)
  {}

  /** With no dirty buffer left, only locked buffers differ from the device. */
  lemma FlushedAll(c: Cache)
    requires Ok(c, NIL) && c.lists.dirty.head == NIL
    ensures forall b :: 0 <= b < |c.device| && (forall i :: Caches(c, NIL, i, b) ==> c.bufs[i].locks == 0) ==>
              c.device[b] == Logical(c, NIL, b)
  {
    hide Ok, ChainsOk, HashOk, Logical, SlotOf;
    OkSizes(c, NIL);
    Heads(c.lists);
    forall b | 0 <= b < |c.device| && (forall i :: Caches(c, NIL, i, b) ==> c.bufs[i].locks == 0)
      ensures c.device[b] == Logical(c, NIL, b)
    {
      if i :| Caches(c, NIL, i, b) {
        OkAt(c, NIL, i);
        LogicalHit(c, NIL, i);
      } else {
        LogicalMiss(c, NIL, b);
      }
    }
  }

  /** A block whose only copy in the cache is marked invalid comes back zeroed. */
  ghost predicate Revived(c: Cache, blkno: nat) {
    exists j :: Caches(c, NIL, j, blkno) && c.bufs[j].state.Invalid?
  }

  /** The caller now holds one more lock on buffer i for block b; all other buffers
      are as they were. */
  ghost predicate Granted(c: Cache, c': Cache, i: nat, b: nat) {
    && Ok(c', NIL) && i < |c.bufs| == |c'.bufs| && |c'.device| == |c.device| && c'.size == c.size
    && c'.bufs[i].blkno == b && |c'.bufs[i].data| == c.size
    && (forall j :: Caches(c, NIL, j, b) ==> j == i) && (!Caches(c, NIL, i, b) ==> c.bufs[i].locks == 0)
    && c'.bufs[i].locks == (if Caches(c, NIL, i, b) then c.bufs[i].locks + 1 else 1)
    && c'.bufs[i].state == (if Caches(c, NIL, i, b) && Unsaved(c.bufs[i].state) then Updated else Locked)
    && (forall j :: 0 <= j < |c.bufs| && j != i ==> c'.bufs[j] == c.bufs[j])
  }

  lemma AcquiredGranted(c: Cache, c': Cache, i: nat, b: nat)
    requires Ok(c, NIL) && Ok(c', NIL) && Acquired(c, c', i, b)
    ensures Granted(c, c', i, b)
    ensures c.bufs[i].state.Invalid? <==> Revived(c, b)
    ensures !Revived(c, b) ==> c'.bufs[i].data == Logical(c, NIL, b) && SameContent(c, NIL, c', NIL)
    ensures Revived(c, b) ==> c'.bufs[i].data == ZeroBytes(c.size) && Logical(c, NIL, b) == c.device[b]
    ensures SameContentBut(c, c', b) && Logical(c', NIL, b) == c'.bufs[i].data
  {
    hide Ok, ChainsOk, HashOk, Logical, PlacedAt;
    OkSizes(c, NIL);
    OkSizes(c', NIL);
    UniqueAt(c, NIL, i);
    LogicalHit(c, NIL, i);
    StateOf(c', NIL, i);
    HitAgain(c', i);
  }

  lemma HitAgain(c: Cache, i: nat)
    requires Ok(c, NIL) && i < |c.bufs| && c.bufs[i].locks > 0 && !c.bufs[i].state.Invalid?
    ensures c.bufs[i].blkno < |c.device| && Logical(c, NIL, c.bufs[i].blkno) == c.bufs[i].data
  {
    hide Ok, ChainsOk, HashOk, Logical;
    OkSizes(c, NIL);
    OkAt(c, NIL, i);
    LogicalHit(c, NIL, i);
  }

  lemma StillUncached(c: Cache, c': Cache, i: nat, b: nat)
    requires |c'.bufs| == |c.bufs| && (forall j :: 0 <= j < |c.bufs| && j != i ==> c'.bufs[j] == c.bufs[j])
    requires forall j :: !Caches(c, NIL, j, b)
    ensures forall j :: !Caches(c', i, j, b)
  {
    forall j ensures !Caches(c', i, j, b) {
      assert !Caches(c, NIL, j, b);
    }
  }

  lemma NotRevived(c: Cache, b: nat)
    requires forall j :: !Caches(c, NIL, j, b)
    ensures !Revived(c, b)
  {}

  lemma InstalledIs(c: Cache, c': Cache, i: nat, b: nat, data: Block, locks: nat)
    requires i < |c.bufs| && i < |c.hash.bucket| && |c.hash.table| == |c.hash.buckets| == HASHSIZE
    requires c'.size == c.size && c'.lists == c.lists && c'.device == c.device
    requires c'.hash == Hashed(c.hash, SlotOf(b), i)
    requires c'.bufs == c.bufs[i := Buf(Locked, 1, b, data)]
    ensures c' == Installed(c, i, b, data)
  {}

  /** Every unlocked buffer is on one of the three lists. */
  lemma UnlockedListed(c: Cache)
    requires Ok(c, NIL)
    ensures (exists i :: 0 <= i < |c.bufs| && c.bufs[i].locks == 0) <==>
            c.lists.frees != [] || c.lists.cleans != [] || c.lists.dirties != []
  {
    hide HashOk;
    if i :| 0 <= i < |c.bufs| && c.bufs[i].locks == 0 { assert PlacedAt(c, NIL, i); }
    if c.lists.frees != [] { ListedUnlocked(c, c.lists.frees[0]); }
    if c.lists.cleans != [] { ListedUnlocked(c, c.lists.cleans[0]); }
    if c.lists.dirties != [] { ListedUnlocked(c, c.lists.dirties[0]); }
  }

  lemma ListedUnlocked(c: Cache, i: nat)
    requires Ok(c, NIL) && (i in c.lists.frees || i in c.lists.cleans || i in c.lists.dirties)
    ensures i < |c.bufs| && c.bufs[i].locks == 0
  {
    hide HashOk;
    assert i < |c.bufs|;
    assert PlacedAt(c, NIL, i);
  }

  lemma FreshPool(c: Cache, n: nat)
    requires |c.bufs| == |c.lists.chain| == |c.hash.bucket| == |c.lists.frees| == n
    requires forall i :: 0 <= i < n ==> c.bufs[i] == Buf(Free, 0, 0, ZeroBytes(c.size)) && c.lists.frees[i] == i
    requires forall i :: 0 <= i < n ==> c.lists.chain[i].next == if i == n - 1 then NIL else i + 1
    requires c.lists.freelist == (if n == 0 then NIL else 0) && c.lists.cleans == c.lists.dirties == []
    requires c.lists.clean == c.lists.dirty == Ends(NIL, NIL)
    requires |c.hash.table| == |c.hash.buckets| == HASHSIZE
    requires forall s :: 0 <= s < HASHSIZE ==> c.hash.table[s] == NIL && c.hash.buckets[s] == []
    requires forall b :: 0 <= b < |c.device| ==> |c.device[b]| == c.size
    ensures Ok(c, NIL) && forall b :: 0 <= b < |c.device| ==> Logical(c, NIL, b) == c.device[b]
  {
    hide Logical;
    forall i | 0 <= i < n ensures PlacedAt(c, NIL, i) {
      assert c.lists.frees[i] == i;
    }
    forall b | 0 <= b < |c.device| ensures Logical(c, NIL, b) == c.device[b] { LogicalMiss(c, NIL, b); }
  }

  /** Every buffer that caches the block is in its bucket. */
  lemma BucketHolds(c: Cache, blkno: nat)
    requires Ok(c, NIL)
    ensures SlotOf(blkno) < |c.hash.buckets|
    ensures forall j :: Caches(c, NIL, j, blkno) ==> j in c.hash.buckets[SlotOf(blkno)]
    ensures forall j :: j in c.hash.buckets[SlotOf(blkno)] ==> j < |c.bufs| && !c.bufs[j].state.Free?
  {
    forall j | Caches(c, NIL, j, blkno) ensures j in c.hash.buckets[SlotOf(blkno)] { assert PlacedAt(c, NIL, j); }
    forall j | j in c.hash.buckets[SlotOf(blkno)] ensures j < |c.bufs| && !c.bufs[j].state.Free? {
      assert InBucket(c.hash, j, SlotOf(blkno));
      assert PlacedAt(c, NIL, j);
    }
  }

  lemma StateOf(c: Cache, x: int, i: nat)
    requires Ok(c, x) && i < |c.bufs| && i != x
    ensures !c.bufs[i].state.Reading? && !c.bufs[i].state.Writing?
    ensures c.bufs[i].locks == 0 <==> Unlocked(c.bufs[i])
    ensures |c.bufs[i].data| == c.size
    ensures !c.bufs[i].state.Free? ==> c.bufs[i].blkno < |c.device|
  {
    assert PlacedAt(c, x, i);
  }

  lemma Kept(c: Cache, c': Cache, b: nat)
    requires SameContentBut(c, c', b) && b < |c.device| && Logical(c', NIL, b) == Logical(c, NIL, b)
    ensures SameContent(c, NIL, c', NIL)
  {}
}
