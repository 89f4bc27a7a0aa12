/** Byte-level file access (utils/dfs/file.c) over the block directory. */
module FileIO {
  import opened Arith
  import opened Basics
  import opened BlockTree
  import opened PointerPage
  import opened BlockDirectory
  import Allocator

  // --------------------------------------------------------------- contents

  /** Byte i of a file whose blocks, in order, are `blocks`. */
  function ByteAt(store: map<nat, Block>, blocks: seq<nat>, bs: nat, i: nat): byte {
    if bs > 0 && i / bs < |blocks| && blocks[i / bs] in store && i % bs < |store[blocks[i / bs]]|
    then store[blocks[i / bs]][i % bs] else 0
  }

  function ContentOf(store: map<nat, Block>, blocks: seq<nat>, bs: nat, size: nat): (c: seq<byte>)
    ensures |c| == size
  {
    seq<byte>(size, i requires 0 <= i < size => ByteAt(store, blocks, bs, i))
  }

  /** d written over c at position p. */
  function Splice(c: seq<byte>, p: nat, d: seq<byte>): (r: seq<byte>)
    requires p <= |c|
    ensures |r| == if p + |d| > |c| then p + |d| else |c|
  {
    c[..p] + d + (if p + |d| <= |c| then c[p + |d|..] else [])
  }

  lemma SpliceNothing(c: seq<byte>, p: nat)
    requires p <= |c|
    ensures Splice(c, p, []) == c
  {}

  lemma SpliceTwice(c: seq<byte>, p: nat, d: seq<byte>, e: seq<byte>)
    requires p <= |c|
    ensures Splice(Splice(c, p, d), p + |d|, e) == Splice(c, p, d + e)
  {}

  /** What was spliced in can be sliced out again; the rest is as before. */
  lemma SpliceSlice(c: seq<byte>, p: nat, d: seq<byte>)
    requires p <= |c|
    ensures Splice(c, p, d)[p..p + |d|] == d
    ensures Splice(c, p, d)[..p] == c[..p]
    ensures p + |d| <= |c| ==> Splice(c, p, d)[p + |d|..] == c[p + |d|..]
  {}

  /** One block's worth of a write. */
  function Patched(was: Block, start: nat, chunk: seq<byte>): Block
    requires start + |chunk| <= |was|
  {
    was[..start] + chunk + was[start + |chunk|..]
  }

  lemma PatchedAt(was: Block, start: nat, chunk: seq<byte>, k: nat)
    requires start + |chunk| <= |was| && k < |was|
    ensures |Patched(was, start, chunk)| == |was|
    ensures Patched(was, start, chunk)[k] == if start <= k < start + |chunk| then chunk[k - start] else was[k]
  {}

  /** The blocks of a file: present, of full size, and no block twice. */
  ghost predicate FileBlocks(store: map<nat, Block>, blocks: seq<nat>, bs: nat) {
    && (forall i :: 0 <= i < |blocks| ==> blocks[i] in store && |store[blocks[i]]| == bs)
    && (forall i, i' :: 0 <= i < i' < |blocks| ==> blocks[i] != blocks[i'])
  }

  lemma ByteAtIs(store: map<nat, Block>, blocks: seq<nat>, bs: nat, i: nat, q: nat, r: nat)
    requires bs > 0 && q == i / bs && r == i % bs
    ensures q >= |blocks| ==> ByteAt(store, blocks, bs, i) == 0
    ensures q < |blocks| && blocks[q] in store && r < |store[blocks[q]]| ==>
              ByteAt(store, blocks, bs, i) == store[blocks[q]][r]
  {}

  /** Position pos is byte r of block q. */
  ghost predicate Located(pos: nat, bs: nat, q: nat, r: nat) {
    bs > 0 && q == pos / bs && r == pos % bs
  }

  lemma ByteSpliced(store: map<nat, Block>, blocks: seq<nat>, bs: nat, pos: nat, k: nat, start: nat, chunk: seq<byte>,
                    base: Block, i: nat)
    requires Located(pos, bs, k, start) && FileBlocks(store, blocks, bs) && start + |chunk| <= bs == |base|
    requires k < |blocks| && (base == store[blocks[k]] || |chunk| == bs)
    ensures ByteAt(store[blocks[k] := Patched(base, start, chunk)], blocks, bs, i) ==
            if pos <= i < pos + |chunk| then chunk[i - pos] else ByteAt(store, blocks, bs, i)
  {
    hide Patched, ByteAt;
    DivFacts(i, bs);
    var q, r := i / bs, i % bs;
    var store' := store[blocks[k] := Patched(base, start, chunk)];
    ByteInBlock(i, pos, bs, |chunk|);
    ByteAtIs(store, blocks, bs, i, q, r);
    PatchedAt(base, start, chunk, r);
    ByteAtIs(store', blocks, bs, i, q, r);
  }

  /** Patching the block of position pos splices the chunk in there. */
  lemma ChunkSpliced(store: map<nat, Block>, blocks: seq<nat>, bs: nat, size: nat, pos: nat, k: nat, start: nat,
                     chunk: seq<byte>, base: Block)
    requires Located(pos, bs, k, start) && FileBlocks(store, blocks, bs) && start + |chunk| <= bs == |base|
    requires k < |blocks| && (base == store[blocks[k]] || |chunk| == bs) && pos <= size
    ensures ContentOf(store[blocks[k] := Patched(base, start, chunk)], blocks, bs,
                      if pos + |chunk| > size then pos + |chunk| else size)
         == Splice(ContentOf(store, blocks, bs, size), pos, chunk)
  {
    hide ByteAt, FileBlocks, Patched, Located;
    var size' := if pos + |chunk| > size then pos + |chunk| else size;
    var store' := store[blocks[k] := Patched(base, start, chunk)];
    forall i | 0 <= i < size'
      ensures ContentOf(store', blocks, bs, size')[i] == Splice(ContentOf(store, blocks, bs, size), pos, chunk)[i]
    {
      ByteSpliced(store, blocks, bs, pos, k, start, chunk, base, i);
    }
  }

  lemma ByteInBlock(i: nat, pos: nat, bs: nat, n: nat)
    requires bs > 0 && pos % bs + n <= bs
    ensures pos <= i < pos + n <==> i / bs == pos / bs && pos % bs <= i % bs < pos % bs + n
    ensures i / bs == pos / bs ==> i - pos == i % bs - pos % bs
    ensures i % bs < bs
  {
    assert i == i / bs * bs + i % bs && pos == pos / bs * bs + pos % bs;
    if i / bs < pos / bs { MulLess(i / bs, pos / bs, bs); }
    if pos / bs < i / bs { MulLess(pos / bs, i / bs, bs); }
  }

  // --------------------------------------------- contents and the block tree

  lemma DataBlocks(t: Tree)
    requires Sound(t) && |t.lv| > 0
    ensures FileBlocks(t.store, t.lv[0], 4 * t.B)
    ensures forall i :: 0 <= i < |t.lv[0]| ==> !IsPage(t.lv, t.lv[0][i])
  {
    forall i | 0 <= i < |t.lv[0]| ensures t.lv[0][i] in t.store && |t.store[t.lv[0][i]]| == 4 * t.B {
      OwnedHas(t.lv, 0, i);
    }
  }

  /** Writing a data block leaves the directory tree as it is. */
  lemma SoundDataWrite(t: Tree, depth: nat, blocks: nat, i: nat, data: Block)
    requires WellFormed(t, depth, blocks) && i < blocks && |data| == 4 * t.B
    ensures WellFormed(t.(store := t.store[t.lv[0][i] := data]), depth, blocks)
  {
    hide Tight, Distinct, Shaped, Image;
    DataBlocks(t);
    var x := t.lv[0][i];
    var t' := t.(store := t.store[x := data]);
    forall j, k | 1 <= j < |t.lv| && 0 <= k < |t.lv[j]|
      ensures t.lv[j][k] in PagesOf(t'.store) && PagesOf(t'.store)[t.lv[j][k]] == Image(t.lv[j - 1], k, t.B)
    {
      assert PagesOf(t.store)[t.lv[j][k]] == Image(t.lv[j - 1], k, t.B);
      assert IsPage(t.lv, t.lv[j][k]);
    }
  }

  /** Directory work does not show in the bytes of the file. */
  lemma SameContent(s: map<nat, Block>, s': map<nat, Block>, lv: Layers, blocks: seq<nat>, blocks': seq<nat>,
                    bs: nat, size: nat)
    requires bs > 0 && OnlyPagesChanged(s, s', lv)
    requires size <= |blocks| * bs && size <= |blocks'| * bs
    requires forall i :: 0 <= i < |blocks| && i < |blocks'| ==> blocks[i] == blocks'[i]
    requires forall i :: 0 <= i < |blocks| ==> blocks[i] in s && !IsPage(lv, blocks[i])
    ensures ContentOf(s', blocks', bs, size) == ContentOf(s, blocks, bs, size)
  {
    forall i | 0 <= i < size ensures ByteAt(s', blocks', bs, i) == ByteAt(s, blocks, bs, i) {
      DivBelow(i, |blocks|, bs);
      DivBelow(i, |blocks'|, bs);
    }
  }

  lemma BlocksCover(pos: nat, size: nat, bs: nat)
    requires bs > 0 && pos <= size
    ensures size <= CeilDiv(size, bs) * bs
    ensures 0 <= pos / bs && 0 <= pos % bs < bs
    ensures pos / bs <= CeilDiv(size, bs)
    ensures pos < size ==> pos / bs < CeilDiv(size, bs)
    ensures pos / bs == CeilDiv(size, bs) ==> pos == size && pos % bs == 0
  {
    hide CeilDiv;
    DivFacts(pos, bs);
    CeilDivChar(size, bs, CeilDiv(size, bs));
    CoverLines(pos / bs, pos % bs, CeilDiv(size, bs), size, bs);
  }

  lemma CoverLines(q: nat, r: nat, c: nat, size: nat, bs: nat)
    requires bs > 0 && r < bs && q * bs + r <= size <= c * bs
    ensures q <= c
    ensures q * bs + r < size ==> q < c
    ensures q == c ==> q * bs + r == size && r == 0
  {
    if c < q { MulLess(c, q, bs); }
  }

  /** How many blocks a file has after a chunk went into block pos / bs. */
  lemma BlocksAfter(pos: nat, size: nat, n: nat, bs: nat)
    requires bs > 0 && pos <= size && 0 < n && pos % bs + n <= bs
    ensures CeilDiv(if pos + n > size then pos + n else size, bs) ==
            if pos / bs < CeilDiv(size, bs) then CeilDiv(size, bs) else CeilDiv(size, bs) + 1
  {
    hide CeilDiv;
    BlocksCover(pos, size, bs);
    DivFacts(pos, bs);
    var q, c := pos / bs, CeilDiv(size, bs);
    CeilDivChar(size, bs, c);
    if pos + n > size {
      CeilDivChar(pos + n, bs, q + 1);
      AfterLines(q, pos % bs, n, c, size, bs);
    }
  }

  lemma AfterLines(q: nat, r: nat, n: nat, c: nat, size: nat, bs: nat)
    requires bs > 0 && 0 < n && r + n <= bs && q * bs + r <= size < q * bs + r + n
    requires size <= c * bs < size + bs && q <= c
    ensures q < c ==> c == q + 1
    ensures (q + 1) * bs >= q * bs + r + n && q * bs + r + n + bs > (q + 1) * bs
  {
    assert (q + 1) * bs == q * bs + bs;
    if q + 1 < c { MulLess(q + 1, c, bs); }
  }

  lemma BlockHasSize(store: map<nat, Block>, blocks: seq<nat>, bs: nat, i: nat)
    requires FileBlocks(store, blocks, bs) && i < |blocks|
    ensures blocks[i] in store && |store[blocks[i]]| == bs
  {}

  lemma PatchedSize(was: Block, start: nat, chunk: seq<byte>)
    requires start + |chunk| <= |was|
    ensures |Patched(was, start, chunk)| == |was|
  {}

  lemma ExpandedContent(t0: Tree, t: Tree, depth: nat, blocks: nat, b: nat, bs: nat, size: nat)
    requires bs > 0 && Appended(t0, t, depth, blocks, b) && Sound(t0) && size <= |t0.lv[0]| * bs
    ensures WellFormed(t, depth, blocks) && t.lv[0] == t0.lv[0] + [b] && blocks == |t0.lv[0]| + 1
    ensures ContentOf(t.store, t.lv[0], bs, size) == ContentOf(t0.store, t0.lv[0], bs, size)
  {
    hide Rep, Owned, Tight, OnlyPagesChanged, IsPage, ByteAt, ContentOf;
    AppendedFacts(t0, t, depth, blocks, b);
    DataBlocks(t);
    MulLess(|t0.lv[0]|, |t.lv[0]|, bs);
    OldBlocksKept(t0, t, b);
    SameContent(t0.store, t.store, t.lv, t0.lv[0], t.lv[0], bs, size);
  }

  lemma OldBlocksKept(t0: Tree, t: Tree, b: nat)
    requires Sound(t0) && Sound(t) && |t0.lv| > 0 && |t.lv| > 0 && t.lv[0] == t0.lv[0] + [b]
    ensures forall i :: 0 <= i < |t0.lv[0]| ==> t0.lv[0][i] in t0.store && !IsPage(t.lv, t0.lv[0][i])
  {
    DataBlocks(t0);
    DataBlocks(t);
    assert forall i :: 0 <= i < |t0.lv[0]| ==> t.lv[0][i] == t0.lv[0][i];
  }

  lemma TruncatedContent(t0: Tree, t: Tree, depth0: nat, depth: nat, blocks: nat, bs: nat, n: nat, size: nat)
    requires n <= size && bs > 0 && |t0.lv| > 0 && WellFormed(t0, depth0, |t0.lv[0]|) &&
             CeilDiv(n, bs) <= |t0.lv[0]| && n <= CeilDiv(n, bs) * bs
    requires (t == t0 && CeilDiv(n, bs) == |t0.lv[0]| && blocks == |t0.lv[0]| && depth == depth0)
             || Truncated(t0, t, depth0, depth, blocks, CeilDiv(n, bs))
    ensures WellFormed(t, depth, blocks) && blocks == CeilDiv(n, bs)
    ensures ContentOf(t.store, t.lv[0], bs, n) == ContentOf(t0.store, t0.lv[0], bs, size)[..n]
  {
    hide Rep, Owned, Tight, OnlyPagesChanged, IsPage, ByteAt, CeilDiv;
    DataBlocks(t0);
    NothingChanged(t0);
    MulLess(CeilDiv(n, bs), |t0.lv[0]| + 1, bs);
    SameContent(t0.store, t.store, t0.lv, t0.lv[0], t.lv[0], bs, n);
    assert ContentOf(t0.store, t0.lv[0], bs, n) == ContentOf(t0.store, t0.lv[0], bs, size)[..n];
  }

  // ------------------------------------------------------------ room to grow

  /** The depth once it has been expanded, one block at a time, to n blocks. */
  function DepthAfter(B: nat, blocks: nat, depth: nat, n: nat): nat
    requires blocks <= n
    decreases n - blocks
  {
    if blocks == n then depth else DepthAfter(B, blocks + 1, NextDepth(B, blocks, depth), n)
  }

  /** The free blocks cover a tree of n blocks, with all its pages. */
  ghost predicate Fits(free: nat, B: nat, blocks: nat, depth: nat, n: nat) {
    B > 0 && blocks <= n && free + TreeSize(blocks, B, depth) >= TreeSize(n, B, DepthAfter(B, blocks, depth, n))
  }

  lemma {:induction false} SizeAfterGrows(B: nat, blocks: nat, depth: nat, n: nat)
    requires B > 0 && blocks <= n
    ensures TreeSize(n, B, DepthAfter(B, blocks, depth, n)) >= TreeSize(blocks, B, depth)
    decreases n - blocks
  {
    hide TreeSize;
    if blocks < n {
      TreeSizeGrows(blocks, B, depth);
      SizeAfterGrows(B, blocks + 1, NextDepth(B, blocks, depth), n);
    }
  }

  lemma FitsStep(free: nat, free': nat, B: nat, blocks: nat, depth: nat, n: nat)
    requires B > 0 && blocks < n
    requires free + TreeSize(blocks, B, depth) == free' + TreeSize(blocks + 1, B, NextDepth(B, blocks, depth))
    ensures Fits(free, B, blocks, depth, n) <==> Fits(free', B, blocks + 1, NextDepth(B, blocks, depth), n)
  {
    hide TreeSize;
  }

  lemma FitsNot(free: nat, B: nat, blocks: nat, depth: nat, n: nat)
    requires B > 0 && blocks < n
    requires free + TreeSize(blocks, B, depth) < TreeSize(blocks + 1, B, NextDepth(B, blocks, depth))
    ensures !Fits(free, B, blocks, depth, n)
  {
    hide TreeSize;
    SizeAfterGrows(B, blocks + 1, NextDepth(B, blocks, depth), n);
  }

  lemma FitsDone(free: nat, B: nat, blocks: nat, depth: nat)
    requires B > 0
    ensures Fits(free, B, blocks, depth, blocks)
  {}

  /** At most one block was appended, and what it took is what the tree gained. */
  ghost predicate Grown(free: nat, free': nat, B: nat, blocks: nat, blocks': nat, depth: nat, depth': nat) {
    || (blocks' == blocks && depth' == depth && free' == free)
    || (B > 0 && blocks' == blocks + 1 && depth' == NextDepth(B, blocks, depth) &&
        free + TreeSize(blocks, B, depth) == free' + TreeSize(blocks + 1, B, NextDepth(B, blocks, depth)))
  }

  ghost predicate NoRoom(free: nat, B: nat, blocks: nat, depth: nat) {
    B > 0 && free + TreeSize(blocks, B, depth) < TreeSize(blocks + 1, B, NextDepth(B, blocks, depth))
  }

  /** A chunk that starts in block `blocks` needs that block. */
  lemma MoreBlocks(pos: nat, size: nat, count: nat, end: nat, bs: nat)
    requires bs > 0 && pos <= size && 0 < count && pos + count <= end
    ensures pos / bs < CeilDiv(if end > size then end else size, bs)
  {
    hide CeilDiv;
    var m := if end > size then end else size;
    DivFacts(pos, bs);
    CeilDivChar(m, bs, CeilDiv(m, bs));
    MoreLines(pos / bs, pos, m, CeilDiv(m, bs), bs);
  }

  lemma MoreLines(q: nat, pos: nat, m: nat, c: nat, bs: nat)
    requires q * bs <= pos < m <= c * bs
    ensures q < c
  {
    if c <= q { MulLess(c, q + 1, bs); }
  }

  /** Expanding moves blocks from the free set to the tree, one for one. */
  lemma AppendedTotal(t0: Tree, t: Tree, depth0: nat, depth: nat, blocks0: nat, blocks: nat, b: nat)
    requires WellFormed(t0, depth0, blocks0) && Appended(t0, t, depth, blocks, b) && t0.B > 0
    ensures |t.free| + TreeSize(blocks, t0.B, depth) == |t0.free| + TreeSize(blocks0, t0.B, depth0)
  {
    hide WellFormed, Sound, Owned, TreeSize, Conserved, Tight, Distinct, Shaped, Appended;
    AppendedFacts(t0, t, depth, blocks, b);
    WellFormedFacts(t, depth, blocks);
    WellFormedFacts(t0, depth0, blocks0);
    ConservedCount(t, t0);
    SoundFacts(t);
    SoundFacts(t0);
    OwnedCount(t0.lv, t0.B);
    OwnedCount(t.lv, t.B);
  }

  // ------------------------------------------------------------ other files

  /** Blocks outside `mine` keep their bytes. */
  ghost predicate Untouched(s: map<nat, Block>, s': map<nat, Block>, mine: set<nat>) {
    forall x :: x in s && x !in mine ==> x in s' && s'[x] == s[x]
  }

  /** The blocks an operation on a tree may write: its own and the free ones. */
  ghost function Mine(t: Tree): set<nat> {
    t.free + Owned(t.lv)
  }

  /** One operation kept within its blocks, and these are the same afterwards. */
  ghost predicate Within(t0: Tree, t: Tree) {
    Mine(t) == Mine(t0) && Untouched(t0.store, t.store, Mine(t0))
  }

  lemma WithinTrans(t0: Tree, t1: Tree, t2: Tree)
    requires Within(t0, t1) && Within(t1, t2)
    ensures Within(t0, t2)
  {
    hide Mine;
  }

  lemma WithinSame(t: Tree)
    ensures Within(t, t)
  {}

  lemma PagesOwned(lv: Layers, x: nat)
    requires IsPage(lv, x)
    ensures x in Owned(lv)
  {
    var j: nat, i: nat :| 1 <= j < |lv| && 0 <= i < |lv[j]| && lv[j][i] == x;
    OwnedHas(lv, j, i);
  }

  lemma AppendedWithin(t0: Tree, t: Tree, depth: nat, blocks: nat, b: nat)
    requires Appended(t0, t, depth, blocks, b)
    ensures Within(t0, t)
  {
    hide WellFormed, Owned, IsPage;
    forall x | x in t0.store && x !in Mine(t0) ensures x in t.store && t.store[x] == t0.store[x] {
      if IsPage(t.lv, x) { PagesOwned(t.lv, x); }
    }
  }

  lemma TruncatedWithin(t0: Tree, t: Tree, depth0: nat, depth: nat, blocks: nat, n: nat)
    requires Truncated(t0, t, depth0, depth, blocks, n)
    ensures Within(t0, t)
  {
    hide WellFormed, Owned, IsPage;
    forall x | x in t0.store && x !in Mine(t0) ensures x in t.store && t.store[x] == t0.store[x] {
      if IsPage(t0.lv, x) { PagesOwned(t0.lv, x); }
    }
  }

  lemma DataWithin(t: Tree, i: nat, data: Block)
    requires |t.lv| > 0 && i < |t.lv[0]|
    ensures Within(t, t.(store := t.store[t.lv[0][i] := data]))
  {
    hide Owned;
    OwnedHas(t.lv, 0, i);
  }

  /** Files that share no block are independent: whatever one operation does
      within its own blocks and the free ones, the other file stays well formed,
      still shares no block with it and has the same bytes. */
  lemma OtherFileKept(t0: Tree, t: Tree, u: Tree, depth: nat, blocks: nat, bs: nat, size: nat)
    requires Sound(t) && Within(t0, t) && t.count == t0.count && t.B == t0.B
    requires WellFormed(u, depth, blocks) && u.store == t0.store && u.free == t0.free && u.count == t0.count &&
             u.B == t0.B
    requires Owned(u.lv) !! Owned(t0.lv)
    ensures WellFormed(u.(store := t.store, free := t.free), depth, blocks)
    ensures Owned(u.lv) !! Owned(t.lv)
    ensures ContentOf(t.store, u.lv[0], bs, size) == ContentOf(t0.store, u.lv[0], bs, size)
  {
    hide Tight, Distinct, Shaped, Image, Owned, ContentOf, PagesOf;
    assert Owned(u.lv) !! Mine(t0);
    OthersPages(t0, t, u);
    forall i | 0 <= i < |u.lv[0]| ensures u.lv[0][i] in t0.store && u.lv[0][i] in t.store
                                          && t.store[u.lv[0][i]] == t0.store[u.lv[0][i]] {
      OwnedHas(u.lv, 0, i);
    }
    SameBytes(t0.store, t.store, u.lv[0], bs, size);
  }

  lemma SameBytes(s: map<nat, Block>, s': map<nat, Block>, blocks: seq<nat>, bs: nat, size: nat)
    requires forall i :: 0 <= i < |blocks| ==> blocks[i] in s && blocks[i] in s' && s'[blocks[i]] == s[blocks[i]]
    ensures ContentOf(s', blocks, bs, size) == ContentOf(s, blocks, bs, size)
  {
    forall i | 0 <= i < size ensures ByteAt(s', blocks, bs, i) == ByteAt(s, blocks, bs, i) {
      SameByte(s, s', blocks, bs, i);
    }
  }

  lemma SameByte(s: map<nat, Block>, s': map<nat, Block>, blocks: seq<nat>, bs: nat, i: nat)
    requires forall i :: 0 <= i < |blocks| ==> blocks[i] in s && blocks[i] in s' && s'[blocks[i]] == s[blocks[i]]
    ensures ByteAt(s', blocks, bs, i) == ByteAt(s, blocks, bs, i)
  {}

  lemma OthersPages(t0: Tree, t: Tree, u: Tree)
    requires Within(t0, t) && Sound(u) && u.store == t0.store && Owned(u.lv) !! Mine(t0)
    ensures PagesMatch(PagesOf(t.store), u.lv, u.B)
  {
    hide Tight, Distinct, Shaped, Image, Owned, Mine;
    forall j: nat, k: nat | 1 <= j < |u.lv| && k < |u.lv[j]|
      ensures u.lv[j][k] in PagesOf(t.store) && PagesOf(t.store)[u.lv[j][k]] == Image(u.lv[j - 1], k, u.B)
    {
      OwnedHas(u.lv, j, k);
      assert PagesOf(t0.store)[u.lv[j][k]] == Image(u.lv[j - 1], k, u.B);
    }
  }

  /** For a whole block it does not matter what was there before. */
  lemma WholeOrPart(was: Block, base: Block, start: nat, chunk: seq<byte>)
    requires start + |chunk| <= |was| == |base| && (base == was || |chunk| == |was|)
    ensures Patched(base, start, chunk) == Patched(was, start, chunk)
  {}

  function Min(a: nat, b: nat): nat {
    if a < b then a else b
  }

  /** A number as the source's unsigned 32-bit arithmetic has it. */
  function Unsigned(x: int): (r: nat)
    ensures r < WORD
  {
    x % WORD
  }

  lemma UnsignedAdd(x: int, y: int)
    ensures Unsigned(Unsigned(x) + y) == Unsigned(x + y)
  {}

  lemma UnsignedExact(x: int)
    ensures Unsigned(x) == x <==> 0 <= x < WORD
  {}

  datatype Whence = SeekSet | SeekCur | SeekEnd

  class File {
    const inode: Inode
    var pos: nat
    var size: nat

    /** A new, empty file. */
    constructor (inode: Inode)
      requires inode.Valid() && inode.blocks == 0
      ensures this.inode == inode && Valid() && Content() == [] && pos == 0
    {
      this.inode, pos, size := inode, 0, 0;
      new;
      CeilDivChar(0, BlockSize(), 0);
    }

    function BlockSize(): (bs: nat)
      ensures bs > 0
    {
      4 * inode.B()
    }

    ghost predicate Valid()
      reads this, inode, inode.vol, inode.vol.fs
    {
      && inode.Valid()
      && pos <= size
      && inode.blocks == CeilDiv(size, BlockSize())
    }

    /** The bytes of the file. */
    ghost function Content(): (c: seq<byte>)
      reads this, inode, inode.vol, inode.vol.fs
      ensures |c| == size
    {
      ContentOf(inode.vol.store, inode.Blocks(), BlockSize(), size)
    }

    /** dfs_read: the bytes from the position on, clipped at the size. */
    method Read(n: nat) returns (data: seq<byte>)
      requires Valid()
      modifies this`pos
      ensures Valid()
      ensures data == Content()[old(pos)..Min(old(pos) + n, size)]
      ensures pos == old(pos) + |data|
    {
      hide WellFormed, Pow, CeilDiv, ContentOf;
      data := [];
      var left := n;
      while pos < size && left > 0
        invariant Valid() && left >= 0 && |data| + left == n
        invariant pos == old(pos) + |data| && data == Content()[old(pos)..pos]
      {
        var chunk := ReadChunk(left);
        data := data + chunk;
        pos := pos + |chunk|;
        left := left - |chunk|;
      }
      assert pos == Min(old(pos) + n, size);
    }

    /** One iteration of dfs_read: from the current block only. */
    method ReadChunk(left: nat) returns (chunk: seq<byte>)
      requires Valid() && pos < size && left > 0
      ensures 0 < |chunk| <= left && pos + |chunk| <= size
      ensures chunk == Content()[pos..pos + |chunk|]
    {
      hide WellFormed, Pow, CeilDiv;
      var bs := BlockSize();
      BlocksCover(pos, size, bs);
      WellFormedFacts(inode.State(), inode.depth, inode.blocks);
      DataBlocks(inode.State());
      var iblock, start := pos / bs, pos % bs;
      var count := Min(Min(bs - start, left), size - pos);
      var blk := inode.GetInodeBlock(iblock);
      var buf := inode.vol.store[blk.value];
      chunk := buf[start..start + count];
      forall k | 0 <= k < count ensures chunk[k] == Content()[pos + k] {
        ByteInBlock(pos + k, pos, bs, count);
      }
    }

    /** The blocks a file needs whose content reaches up to end. */
    function BlocksUpTo(end: nat): nat
      reads this
    {
      CeilDiv(if end > size then end else size, BlockSize())
    }

    /** dfs_write: the data is spliced in at the position, unless the search for
        one of the new blocks strays to a block in use. It stops the program (ok
        is false) if the free blocks do not cover the larger tree; with sound
        hints, as right after a mount, exactly then. log has all the searches. */
    method Write(data: seq<byte>) returns (ok: bool, stray: bool, ghost log: seq<Search>)
      requires Valid()
      modifies this, inode, inode.vol, inode.vol.fs`blocks
      ensures (stray <==> !Unmisled(log)) && (old(inode.vol.IsSteady()) ==> inode.vol.IsSteady() && !stray)
      ensures (ok ==> !stray) && (!stray ==> Allocator.HintsKept(old(inode.vol.fs.blocks), inode.vol.fs.blocks))
      ensures var room := Fits(|old(inode.vol.free)|, inode.B(), old(inode.blocks), old(inode.depth),
                               old(BlocksUpTo(pos + |data|)));
              (ok ==> room) && (Allocator.HintsSound(old(inode.vol.fs.blocks)) && room && !stray ==> ok)
      ensures !ok && !stray ==> Allocator.Exhausted(inode.vol.fs.blocks)
      ensures old(BlocksUpTo(pos + |data|)) == old(inode.blocks) ==>
                ok && log == [] && inode.blocks == old(inode.blocks)
      ensures ok ==> Valid() && Content() == Splice(old(Content()), old(pos), data)
      ensures ok ==> pos == old(pos) + |data| && size == |Content()|
      ensures ok ==> Within(old(inode.State()), inode.State())
    {
      hide Within, Linked, WellFormed, Pow, CeilDiv, ContentOf, Splice, Fits, TreeSize, NextDepth, Unmisled,
           Allocator.Aligned, Allocator.HintsSound, Allocator.HintsKnown, Allocator.Exhausted;
      ghost var c0, p0 := Content(), pos;
      var bs, written := BlockSize(), 0;
      ghost var n := BlocksUpTo(pos + |data|);
      CeilMonotone(size, if pos + |data| > size then pos + |data| else size, bs);
      ok, stray, log := true, false, [];
      NoSearch();
      WithinSame(inode.State());
      SpliceNothing(c0, p0);
      assert data[..0] == [];
      while written < |data|
        invariant 0 <= written <= |data| && Valid() && p0 <= |c0| && old(inode.blocks) <= inode.blocks
        invariant ok && !stray && Unmisled(log) && (old(inode.vol.IsSteady()) ==> inode.vol.IsSteady())
        invariant old(inode.blocks) == n ==> log == []
        invariant Allocator.HintsKept(old(inode.vol.fs.blocks), inode.vol.fs.blocks)
        invariant pos == p0 + written && Content() == Splice(c0, p0, data[..written])
        invariant inode.blocks <= n == BlocksUpTo(p0 + |data|) && Within(old(inode.State()), inode.State())
        invariant Fits(|old(inode.vol.free)|, inode.B(), old(inode.blocks), old(inode.depth), n) <==>
                  Fits(|inode.vol.free|, inode.B(), inode.blocks, inode.depth, n)
      {
        var count := Min(bs - pos % bs, |data| - written);
        var chunk := data[written..written + count];
        ghost var free0, blocks0, depth0 := |inode.vol.free|, inode.blocks, inode.depth;
        MoreBlocks(pos, size, count, p0 + |data|, bs);
        ghost var before := inode.State();
        ghost var more;
        ok, stray, more := WriteChunk(chunk);
        UnmisledBoth(log, more);
        log := log + more;
        if !ok {
          if Allocator.HintsSound(old(inode.vol.fs.blocks)) && !stray { FitsNot(free0, inode.B(), blocks0, depth0, n); }
          return;
        }
        WithinTrans(old(inode.State()), before, inode.State());
        CeilMonotone(size, if p0 + |data| > size then p0 + |data| else size, bs);
        if inode.blocks > blocks0 { FitsStep(free0, |inode.vol.free|, inode.B(), blocks0, depth0, n); }
        SpliceTwice(c0, p0, data[..written], chunk);
        assert data[..written] + chunk == data[..written + count];
        written := written + count;
      }
      assert data[..written] == data;
      FitsDone(|inode.vol.free|, inode.B(), inode.blocks, inode.depth);
    }

    /** One iteration of dfs_write: into the current block, or into a new block
        at the end of the file. */
    method WriteChunk(chunk: seq<byte>) returns (ok: bool, stray: bool, ghost log: seq<Search>)
      requires Valid() && 0 < |chunk| && pos % BlockSize() + |chunk| <= BlockSize()
      modifies this, inode, inode.vol, inode.vol.fs`blocks
      ensures (stray <==> !Unmisled(log)) && (old(inode.vol.IsSteady()) ==> inode.vol.IsSteady() && !stray)
      ensures (ok ==> !stray) && (!stray ==> Allocator.HintsKept(old(inode.vol.fs.blocks), inode.vol.fs.blocks))
      ensures old(pos) / BlockSize() < old(inode.blocks) ==> ok && log == []
      ensures ok ==> Valid() && pos == old(pos) + |chunk|
      ensures ok ==> size == if old(pos) + |chunk| > old(size) then old(pos) + |chunk| else old(size)
      ensures ok ==> Content() == Splice(old(Content()), old(pos), chunk)
      ensures ok ==> Within(old(inode.State()), inode.State())
      ensures ok ==> Grown(|old(inode.vol.free)|, |inode.vol.free|, inode.B(), old(inode.blocks), inode.blocks,
                           old(inode.depth), inode.depth)
      ensures !ok && !stray ==> old(pos) / BlockSize() == old(inode.blocks) && Allocator.Exhausted(inode.vol.fs.blocks)
      ensures !ok && !stray && Allocator.HintsSound(old(inode.vol.fs.blocks)) ==>
                NoRoom(|old(inode.vol.free)|, inode.B(), old(inode.blocks), old(inode.depth))
    {
      hide Within, Linked, WellFormed, Pow, CeilDiv, ContentOf, Splice, Grown, NoRoom, Unmisled, Allocator.Aligned,
           Allocator.HintsSound, Allocator.HintsKnown, Allocator.Exhausted;
      var bs := BlockSize();
      BlocksCover(pos, size, bs);
      BlocksAfter(pos, size, |chunk|, bs);
      var iblock := pos / bs;
      var blk;
      blk, stray, log := BlockFor(iblock);
      if blk.None? {
        return false, stray, log;
      }
      ghost var between := inode.State();
      PatchBlock(iblock, blk.value, pos % bs, chunk);
      WithinTrans(old(inode.State()), between, inode.State());
      return true, false, log;
    }

    /** Copy the chunk into its block and advance the position and the size. A
        whole block is written without reading it first. */
    method PatchBlock(iblock: nat, blk: nat, start: nat, chunk: seq<byte>)
      requires inode.Valid() && pos <= size && 0 < |chunk| && start + |chunk| <= BlockSize()
      requires iblock == pos / BlockSize() < inode.blocks && start == pos % BlockSize()
      requires |inode.layers| > 0 && iblock < |inode.layers[0]| && blk == inode.layers[0][iblock]
      modifies this, inode.vol
      ensures inode.Valid() && pos == old(pos) + |chunk| && inode.vol.free == old(inode.vol.free)
      ensures size == if old(pos) + |chunk| > old(size) then old(pos) + |chunk| else old(size)
      ensures Content() == Splice(old(Content()), old(pos), chunk) && Within(old(inode.State()), inode.State())
      ensures old(blk in inode.vol.store && |inode.vol.store[blk]| == BlockSize()) &&
              inode.vol.store == old(inode.vol.store)[blk := Patched(old(inode.vol.store[blk]), start, chunk)]
    {
      hide Within, Linked, WellFormed, Sound, Pow, ContentOf, Splice, Patched, FileBlocks;
      var bs := BlockSize();
      WellFormedFacts(inode.State(), inode.depth, inode.blocks);
      DataBlocks(inode.State());
      BlockHasSize(inode.vol.store, inode.Blocks(), bs, iblock);
      var buf := if |chunk| == bs then ZeroBytes(bs) else inode.vol.store[blk];
      ChunkSpliced(inode.vol.store, inode.Blocks(), bs, size, pos, iblock, start, chunk, buf);
      PatchedSize(buf, start, chunk);
      WholeOrPart(inode.vol.store[blk], buf, start, chunk);
      SoundDataWrite(inode.State(), inode.depth, inode.blocks, iblock, Patched(buf, start, chunk));
      DataWithin(inode.State(), iblock, Patched(buf, start, chunk));
      inode.vol.store := inode.vol.store[blk := Patched(buf, start, chunk)];
      pos := pos + |chunk|;
      if pos > size { size := pos; }
    }

    /** The block to write to: an existing one, or a new one at the end. */
    method BlockFor(iblock: nat) returns (blk: Option<nat>, stray: bool, ghost log: seq<Search>)
      requires inode.Valid() && iblock <= inode.blocks && size <= inode.blocks * BlockSize()
      modifies inode, inode.vol, inode.vol.fs`blocks
      ensures (stray <==> !Unmisled(log)) && (old(inode.vol.IsSteady()) ==> inode.vol.IsSteady() && !stray)
      ensures (stray ==> blk.None?) && (iblock < old(inode.blocks) ==> blk.Some? && log == [])
      ensures !stray ==> Allocator.HintsKept(old(inode.vol.fs.blocks), inode.vol.fs.blocks)
      ensures blk.Some? ==> inode.Valid() && iblock < inode.blocks && |inode.layers| > 0
                            && iblock < |inode.layers[0]| && blk.value == inode.layers[0][iblock]
      ensures blk.Some? ==> inode.blocks == if iblock < old(inode.blocks) then old(inode.blocks)
              else old(inode.blocks) + 1
      ensures blk.Some? ==> Content() == old(Content()) && Within(old(inode.State()), inode.State())
      ensures blk.Some? ==> Grown(|old(inode.vol.free)|, |inode.vol.free|, inode.B(), old(inode.blocks), inode.blocks,
                                  old(inode.depth), inode.depth)
      ensures blk.None? && !stray ==> iblock == old(inode.blocks) && Allocator.Exhausted(inode.vol.fs.blocks)
      ensures blk.None? && !stray && Allocator.HintsSound(old(inode.vol.fs.blocks)) ==>
                NoRoom(|old(inode.vol.free)|, inode.B(), old(inode.blocks), old(inode.depth))
    {
      hide Within, Linked, WellFormed, Pow, Appended, TreeSize, Unmisled, Allocator.Aligned, Allocator.HintsSound,
           Allocator.HintsKnown, Allocator.Exhausted;
      ghost var t0 := inode.State();
      WithinSame(t0);
      WellFormedFacts(t0, inode.depth, inode.blocks);
      DataBlocks(t0);
      if iblock < inode.blocks {
        NoSearch();
        stray, log := false, [];
        blk := inode.GetInodeBlock(iblock);
      } else {
        blk, stray, log := inode.ExpandInode();
        if stray {
          blk := None;
        }
        if blk.Some? {
          ExpandedContent(t0, inode.State(), inode.depth, inode.blocks, blk.value, BlockSize(), size);
          AppendedWithin(t0, inode.State(), inode.depth, inode.blocks, blk.value);
          AppendedTotal(t0, inode.State(), old(inode.depth), inode.depth, old(inode.blocks), inode.blocks, blk.value);
          WellFormedFacts(inode.State(), inode.depth, inode.blocks);
        }
      }
    }

    /** dfs_lseek, in the unsigned 32-bit arithmetic of the source: a signed
        displacement arrives modulo 2^32. The seek lands on the wanted position
        or is refused, except that a position below 0 or from 2^32 on is taken
        modulo 2^32 when that falls inside the file. */
    method Lseek(delta: int, whence: Whence) returns (r: int)
      requires pos <= size < WORD && -0x8000_0000 <= delta < WORD
      modifies this`pos
      ensures var wanted := delta + match whence case SeekSet => 0 case SeekCur => old(pos) case SeekEnd => size;
              && (r == -1 <==> Unsigned(wanted) > size)
              && (r == -1 ==> pos == old(pos))
              && (r != -1 ==> r == pos == Unsigned(wanted))
              && (r == (if 0 <= wanted <= size then wanted else -1) <==>
                 (0 <= wanted < WORD || Unsigned(wanted) > size))
      ensures pos <= size
    {
      hide Unsigned;
      var offset := Unsigned(delta);
      match whence {
        case SeekSet =>
        case SeekCur =>
          UnsignedAdd(delta, pos);
          offset := Unsigned(offset + pos);
        case SeekEnd =>
          UnsignedAdd(delta, size);
          offset := Unsigned(offset + size);
      }
      UnsignedExact(delta + match whence case SeekSet => 0 case SeekCur => pos case SeekEnd => size);
      if offset > size {
        return -1;
      }
      pos := offset;
      return offset;
    }

    /** dfs_chsize: the file becomes a prefix of itself; growing is refused. */
    method Chsize(newSize: nat) returns (rc: int)
      requires Valid()
      modifies this, inode, inode.vol, inode.vol.fs`blocks
      ensures Allocator.HealthKept(old(inode.vol.fs.blocks), inode.vol.fs.blocks)
      ensures rc == if newSize > old(size) then -1 else 0
      ensures rc == -1 ==> Valid() && Content() == old(Content()) && pos == old(pos)
      ensures rc == 0 ==> Valid() && Content() == old(Content())[..newSize] && pos == Min(old(pos), newSize)
      ensures Within(old(inode.State()), inode.State())
    {
      hide Within, Linked, WellFormed, Sound, Pow, CeilDiv, Truncated, ContentOf, FileBlocks, IsPage,
           Allocator.Aligned, Allocator.HintsSound, Allocator.HintsKnown, Allocator.Exhausted;
      WithinSame(inode.State());
      if newSize > size {
        return -1;
      }
      var bs := BlockSize();
      ghost var t0 := inode.State();
      WellFormedFacts(t0, inode.depth, inode.blocks);
      DataBlocks(t0);
      BlocksCover(newSize, size, bs);
      BlocksCover(newSize, newSize, bs);
      CeilMonotone(newSize, size, bs);
      size := newSize;
      if pos > newSize { pos := newSize; }
      rc := inode.TruncateInode(CeilDiv(newSize, bs));
      if CeilDiv(newSize, bs) < old(inode.blocks) {
        TruncatedWithin(t0, inode.State(), old(inode.depth), inode.depth, inode.blocks, CeilDiv(newSize, bs));
      }
      TruncatedContent(t0, inode.State(), old(inode.depth), inode.depth, inode.blocks, bs, newSize, old(size));
      WellFormedFacts(inode.State(), inode.depth, inode.blocks);
    }

    /** Writing, seeking back and reading returns what was written. */
    method WriteSeekRead(data: seq<byte>) returns (ok: bool, stray: bool, back: seq<byte>)
      requires Valid() && size < WORD && pos + |data| < WORD
      modifies this, inode, inode.vol, inode.vol.fs`blocks
      ensures old(inode.vol.IsSteady()) ==> inode.vol.IsSteady() && !stray
      ensures var room := Fits(|old(inode.vol.free)|, inode.B(), old(inode.blocks), old(inode.depth),
                               old(BlocksUpTo(pos + |data|)));
              (ok ==> room) && (Allocator.HintsSound(old(inode.vol.fs.blocks)) && room && !stray ==> ok)
      ensures old(BlocksUpTo(pos + |data|)) == old(inode.blocks) ==> ok
      ensures ok ==> Valid() && back == data
      ensures ok ==> Content() == Splice(old(Content()), old(pos), data)
    {
      hide WellFormed, Pow, CeilDiv, ContentOf, Splice, Linked, Fits, Allocator.Aligned, Allocator.HintsSound,
           Allocator.HintsKnown, Allocator.Exhausted;
      back := [];
      ghost var c0 := Content();
      var start := pos;
      ghost var log;
      ok, stray, log := Write(data);
      if ok {
        SpliceSlice(c0, start, data);
        var r := Lseek(start, SeekSet);
        back := Read(|data|);
      }
    }
  }

  /** A seek by 2^32 - 1 from position 5 of a file of 10 bytes is not refused: it
      lands on 4. */
  method SeekWraps(f: File) returns (r: int)
    requires f.pos == 5 && f.size == 10
    modifies f`pos
    ensures r == 4 && f.pos == 4
  {
    assert Unsigned(5 + 0xffff_ffff) == 4;
    r := f.Lseek(0xffff_ffff, SeekCur);
  }

  /** Two files on one volume that share no block: writing one leaves the other
      valid and its bytes unchanged. */
  method WriteBeside(f: File, g: File, data: seq<byte>) returns (ok: bool, stray: bool)
    requires f != g && f.inode != g.inode && f.inode.vol == g.inode.vol && f.Valid() && g.Valid()
    requires Owned(f.inode.layers) !! Owned(g.inode.layers)
    modifies f, f.inode, f.inode.vol, f.inode.vol.fs`blocks
    ensures old(f.inode.vol.IsSteady()) ==> !stray
    ensures !ok && !stray ==> Allocator.Exhausted(f.inode.vol.fs.blocks)
    ensures ok ==> f.Valid() && f.Content() == Splice(old(f.Content()), old(f.pos), data)
    ensures ok ==> g.Valid() && g.Content() == old(g.Content()) && Owned(f.inode.layers) !! Owned(g.inode.layers)
  {
    hide Within, Linked, WellFormed, Owned, ContentOf, Splice, Fits, CeilDiv, Pow, Allocator.Aligned,
         Allocator.HintsSound, Allocator.HintsKnown, Allocator.Exhausted;
    ghost var t0, u := f.inode.State(), g.inode.State();
    ghost var log;
    ok, stray, log := f.Write(data);
    if ok {
      WellFormedFacts(f.inode.State(), f.inode.depth, f.inode.blocks);
      WellFormedFacts(u, g.inode.depth, g.inode.blocks);
      OtherFileKept(t0, f.inode.State(), u, g.inode.depth, g.inode.blocks, g.BlockSize(), g.size);
    }
  }
}
