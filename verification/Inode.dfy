/** The block directory operations of an inode (utils/dfs/inode.c), over the
    logical contents of the volume's blocks. */
module BlockDirectory {
  import opened Arith
  import opened Basics
  import opened BlockTree
  import opened PointerPage
  import Allocator

  // ------------------------------------------------------------ tree states

  ghost function PagesOf(store: map<nat, Block>): map<nat, seq<nat>> {
    map b | b in store :: Ptrs(store[b])
  }

  /** An inode's tree together with the volume it lives in: block contents, the
      blocks whose bitmap bit is clear, the root array and the layers. */
  datatype Tree = Tree(count: nat, B: nat, store: map<nat, Block>, free: set<nat>, roots: seq<nat>, lv: Layers)

  ghost predicate VolumeSound(count: nat, B: nat, store: map<nat, Block>, free: set<nat>) {
    && B >= ROOTS
    && count <= WORD
    && (forall b :: b in store <==> 0 <= b < count)
    && (forall b :: b in store ==> |store[b]| == 4 * B)
    && (forall b :: b in free ==> 0 < b < count)
  }

  ghost predicate Sound(t: Tree) {
    && VolumeSound(t.count, t.B, t.store, t.free)
    && Rep(PagesOf(t.store), t.roots, t.lv, t.B)
    && t.free !! Owned(t.lv)
    && (forall b :: b in Owned(t.lv) ==> b < t.count)
  }

  /** What holds between operations: a sound tree without empty pages, whose
      descriptor fields are right. */
  ghost predicate WellFormed(t: Tree, depth: nat, blocks: nat) {
    && Sound(t)
    && Tight(t.lv, t.B)
    && depth == |t.lv| - 1
    && blocks == |t.lv[0]|
  }

  ghost predicate IsPage(lv: Layers, x: nat) {
    exists j, i :: 1 <= j < |lv| && 0 <= i < |lv[j]| && lv[j][i] == x
  }

  /** Only directory pages of this inode were written. */
  ghost predicate OnlyPagesChanged(store: map<nat, Block>, store': map<nat, Block>, lv: Layers) {
    forall x :: x in store ==> x in store' && (store'[x] == store[x] || IsPage(lv, x))
  }

  /** No block is lost or gained between the inode and the free set. */
  ghost predicate Conserved(t: Tree, t0: Tree) {
    t.free + Owned(t.lv) == t0.free + Owned(t0.lv)
  }

  // --------------------------------------------------------- reading a path

  lemma SoundFacts(t: Tree)
    requires Sound(t)
    ensures t.B >= ROOTS && |t.lv| > 0 && |t.roots| == ROOTS
    ensures Distinct(t.lv) && Shaped(t.lv, t.B) && t.free !! Owned(t.lv)
    ensures forall b :: b in t.free ==> b < t.count && b in t.store && |t.store[b]| == 4 * t.B
    ensures t.count <= WORD
  {}

  lemma RootOnPath(t: Tree, i: nat)
    requires Sound(t) && i < ROOTS
    ensures |t.lv| > 0 && |t.roots| == ROOTS && t.roots[i] == Slot(t.lv[|t.lv| - 1], i)
    ensures t.roots[i] == 0 <==> |t.lv[|t.lv| - 1]| <= i
  {}

  /** What the page on the path of block x holds for the next level down. */
  lemma EntryOnPath(t: Tree, x: nat, h: nat)
    requires Sound(t) && 1 <= h < |t.lv| && t.B > 0 && Up(x, t.B, h) < |t.lv[h]|
    ensures var p, c := t.lv[h][Up(x, t.B, h)], PageSlot(Up(x, t.B, h - 1), t.B);
            && p in t.store && |t.store[p]| == 4 * t.B && 4 * c + 4 <= |t.store[p]|
            && Ptr(t.store[p], c) == Slot(t.lv[h - 1], Up(x, t.B, h - 1))
            && (Ptr(t.store[p], c) == 0 <==> |t.lv[h - 1]| <= Up(x, t.B, h - 1))
  {
    var p, c := t.lv[h][Up(x, t.B, h)], PageSlot(Up(x, t.B, h - 1), t.B);
    PathStep(t.lv[h - 1], x, t.B, h);
    assert PagesOf(t.store)[p] == Ptrs(t.store[p]) == Image(t.lv[h - 1], Up(x, t.B, h), t.B);
    assert Ptrs(t.store[p])[c] == Ptr(t.store[p], c);
  }

  // -------------------------------------------------------- storing a block

  lemma PagesSet(store: map<nat, Block>, p: nat, c: nat, v: nat)
    requires p in store && 4 * c + 4 <= |store[p]| && v < WORD
    ensures |SetPtr(store[p], c, v)| == |store[p]|
    ensures PagesOf(store[p := SetPtr(store[p], c, v)]) == PagesOf(store)[p := Ptrs(store[p])[c := v]]
  {
    PtrsSet(store[p], c, v);
  }

  lemma PagesZeroed(store: map<nat, Block>, b: nat, B: nat)
    ensures PagesOf(store[b := ZeroBytes(4 * B)]) == PagesOf(store)[b := Zeros(B)]
  {
    PtrsZero(4 * B);
    assert Ptrs(ZeroBytes(4 * B)) == Zeros(B);
  }

  /** A new directory page starts zeroed; a data block keeps its bytes. */
  function Prepared(store: map<nat, Block>, b: nat, B: nat, isPage: bool): map<nat, Block> {
    if isPage then store[b := ZeroBytes(4 * B)] else store
  }

  function AtRoot(t: Tree, b: nat): Tree
    requires |t.lv| > 0 && |t.lv[|t.lv| - 1]| < |t.roots|
  {
    var j := |t.lv| - 1;
    t.(free := t.free - {b}, store := Prepared(t.store, b, t.B, j > 0),
       roots := t.roots[|t.lv[j]| := b], lv := Append(t.lv, j, b))
  }

  /** b becomes the next root entry. */
  lemma SoundAtRoot(t: Tree, b: nat)
    requires Sound(t) && b in t.free && |t.lv[|t.lv| - 1]| < ROOTS
    ensures |t.roots| == ROOTS && Sound(AtRoot(t, b)) && Conserved(AtRoot(t, b), t)
    ensures OnlyPagesChanged(t.store, AtRoot(t, b).store, AtRoot(t, b).lv)
  {
    var j, t' := |t.lv| - 1, AtRoot(t, b);
    PagesZeroed(t.store, b, t.B);
    RepAppend(PagesOf(t.store), t.roots, t.lv, t.B, j, b, PagesOf(t'.store), t'.roots);
    assert t'.lv[j][|t.lv[j]|] == b;
  }

  function AtEntry(t: Tree, j: nat, p: nat, c: nat, b: nat): Tree
    requires j < |t.lv| && b < WORD
    requires var s := Prepared(t.store, b, t.B, j > 0); p in s && 4 * c + 4 <= |s[p]|
  {
    var s := Prepared(t.store, b, t.B, j > 0);
    t.(free := t.free - {b}, store := s[p := SetPtr(s[p], c, b)], lv := Append(t.lv, j, b))
  }

  /** b becomes the next entry of layer j, in the page above it. */
  lemma SoundAtEntry(t: Tree, j: nat, b: nat)
    requires Sound(t) && b in t.free && j + 1 < |t.lv| && t.B > 0 && |t.lv[j]| / t.B < |t.lv[j + 1]|
    ensures var p, c, s := t.lv[j + 1][|t.lv[j]| / t.B], |t.lv[j]| % t.B, Prepared(t.store, b, t.B, j > 0);
            && b < WORD && p in s && |s[p]| == 4 * t.B && 4 * c + 4 <= |s[p]|
            && Sound(AtEntry(t, j, p, c, b)) && Conserved(AtEntry(t, j, p, c, b), t)
            && OnlyPagesChanged(t.store, AtEntry(t, j, p, c, b).store, AtEntry(t, j, p, c, b).lv)
  {
    hide EntryWritten, SameBut, SetPtr, Ptrs, Distinct, Shaped, Tight;
    var n := |t.lv[j]|;
    var p, c, s := t.lv[j + 1][n / t.B], n % t.B, Prepared(t.store, b, t.B, j > 0);
    OwnedHas(t.lv, j + 1, n / t.B);
    EntryWrittenAt(t, j, b, p, c, s);
    var t' := AtEntry(t, j, p, c, b);
    OwnsMember(t.lv, b);
    RepAppend(PagesOf(t.store), t.roots, t.lv, t.B, j, b, PagesOf(t'.store), t'.roots);
    assert t'.lv[j + 1][n / t.B] == p && t'.lv[j][n] == b;
  }

  lemma EntryWrittenAt(t: Tree, j: nat, b: nat, p: nat, c: nat, s: map<nat, Block>)
    requires Sound(t) && b in t.free && j + 1 < |t.lv| && t.B > 0 && |t.lv[j]| / t.B < |t.lv[j + 1]|
    requires p == t.lv[j + 1][|t.lv[j]| / t.B] && c == |t.lv[j]| % t.B && s == Prepared(t.store, b, t.B, j > 0)
    requires p in Owned(t.lv)
    ensures b < WORD && p in s && |s[p]| == 4 * t.B && 4 * c + 4 <= |s[p]|
    ensures |SetPtr(s[p], c, b)| == |s[p]|
    ensures var s' := s[p := SetPtr(s[p], c, b)];
            && EntryWritten(PagesOf(t.store), t.roots, t.lv, t.B, j, b, PagesOf(s'), t.roots)
            && SameBut(PagesOf(t.store), PagesOf(s'), t.lv, ParentOf(t.lv, j, |t.lv[j]|, t.B))
            && (j > 0 ==> b in PagesOf(s') && PagesOf(s')[b] == Zeros(t.B))
  {
    hide Distinct, Shaped, Tight;
    assert p in PagesOf(t.store);
    PagesZeroed(t.store, b, t.B);
    PagesSet(s, p, c, b);
  }

  // ------------------------------------------------------------- appending

  /** Every layer kept its nodes in place. */
  ghost predicate Extends(lv: Layers, lv0: Layers) {
    |lv0| <= |lv| && forall j :: 0 <= j < |lv0| ==> lv0[j] <= lv[j]
  }

  /** The outcome of an append: a well-formed tree for one block more, taken
      from the free set; earlier blocks and all other contents are as before. */
  ghost predicate Appended(t0: Tree, t: Tree, depth: nat, blocks: nat, b: nat) {
    && |t0.lv| > 0
    && WellFormed(t, depth, blocks)
    && t.B == t0.B && t.count == t0.count
    && t.lv[0] == t0.lv[0] + [b]
    && Extends(t.lv, t0.lv)
    && b in t0.free && t.free <= t0.free
    && Conserved(t, t0)
    && OnlyPagesChanged(t0.store, t.store, t.lv)
  }

  /** Half-way through an append to t0: the layers from h up have an entry on
      the path of the new block, those below are untouched. */
  ghost predicate Growing(t: Tree, t0: Tree, h: nat) {
    && Sound(t) && Conserved(t, t0)
    && t.B == t0.B && t.count == t0.count && |t.lv| == |t0.lv| && t.free <= t0.free
    && Extends(t.lv, t0.lv)
    && (forall j :: 0 <= j < |t0.lv| && j < h ==> t.lv[j] == t0.lv[j])
    && (forall j :: 0 <= j < |t0.lv| && h <= j ==> |t.lv[j]| == Up(|t0.lv[0]|, t.B, j) + 1)
    && OnlyPagesChanged(t0.store, t.store, t.lv)
  }

  lemma GrowingStart(t: Tree, depth: nat, blocks: nat)
    requires WellFormed(t, depth, blocks)
    ensures Growing(t, t, |t.lv|)
  {}

  lemma WellFormedFacts(t: Tree, depth: nat, blocks: nat)
    requires WellFormed(t, depth, blocks)
    ensures Sound(t) && |t.lv| == depth + 1 && blocks == |t.lv[0]| && |t.roots| == ROOTS
    ensures t.B >= ROOTS && Tight(t.lv, t.B) && Shaped(t.lv, t.B)
  {}

  lemma GrowingFacts(t: Tree, t0: Tree, h: nat)
    requires Growing(t, t0, h)
    ensures Sound(t) && Conserved(t, t0)
    ensures |t.lv| == |t0.lv| && t.B == t0.B && t.count == t0.count
    ensures |t.roots| == ROOTS && t.count <= WORD
    ensures forall b :: b in t.free ==> b < t.count && b in t.store
    ensures forall j :: 0 <= j < |t0.lv| && j < h ==> t.lv[j] == t0.lv[j]
    ensures t.free <= t0.free && Extends(t.lv, t0.lv) && OnlyPagesChanged(t0.store, t.store, t.lv)
  {}

  lemma AppendedFacts(t0: Tree, t: Tree, depth: nat, blocks: nat, b: nat)
    requires Appended(t0, t, depth, blocks, b)
    ensures WellFormed(t, depth, blocks) && blocks == |t0.lv[0]| + 1 && t.B == t0.B && Conserved(t, t0)
    ensures t.count == t0.count && t.lv[0] == t0.lv[0] + [b] && b in t0.free && t.free <= t0.free
    ensures Extends(t.lv, t0.lv) && OnlyPagesChanged(t0.store, t.store, t.lv)
  {}

  lemma PagesChangedTrans(s0: map<nat, Block>, s1: map<nat, Block>, s2: map<nat, Block>, lv: Layers, lv': Layers)
    requires OnlyPagesChanged(s0, s1, lv) && OnlyPagesChanged(s1, s2, lv')
    requires Extends(lv', lv)
    ensures OnlyPagesChanged(s0, s2, lv')
  {
    forall x | IsPage(lv, x) ensures IsPage(lv', x) {
      var j, i :| 1 <= j < |lv| && 0 <= i < |lv[j]| && lv[j][i] == x;
      assert lv'[j][i] == x;
    }
  }

  /** The root entry on the new block's path is there, or is the next free one. */
  lemma NextRoot(t: Tree, t0: Tree)
    requires |t0.lv| > 0 && t0.B > 0 && Tight(t0.lv, t0.B) && Growing(t, t0, |t0.lv|)
    ensures Up(|t0.lv[0]|, t.B, |t0.lv| - 1) <= |t.lv[|t.lv| - 1]| <= Up(|t0.lv[0]|, t.B, |t0.lv| - 1) + 1
    ensures |t.lv[|t.lv| - 1]| == Up(|t0.lv[0]|, t.B, |t0.lv| - 1) + 1 ==> Growing(t, t0, |t0.lv| - 1)
  {
    hide Sound, Owned, OnlyPagesChanged;
    NextInLayer(t0.lv, t0.B, |t0.lv| - 1);
  }

  lemma GrowRoot(t: Tree, t0: Tree, b: nat)
    requires |t0.lv| > 0 && t0.B > 0 && Growing(t, t0, |t0.lv|) && b in t.free
    requires |t.lv[|t.lv| - 1]| == Up(|t0.lv[0]|, t.B, |t0.lv| - 1) < ROOTS
    ensures |t.roots| == ROOTS
    ensures Growing(AtRoot(t, b), t0, |t0.lv| - 1)
  {
    hide Sound, Owned, OnlyPagesChanged;
    SoundAtRoot(t, b);
    var t' := AtRoot(t, b);
    assert t'.lv[|t.lv| - 1] == t.lv[|t.lv| - 1] + [b];
    PagesChangedTrans(t0.store, t.store, t'.store, t.lv, t'.lv);
  }

  /** The entry of layer h - 1 on the new block's path is there, or is the next
      free one in the page the path has reached. */
  lemma NextOnPath(t: Tree, t0: Tree, h: nat)
    requires |t0.lv| > 0 && t0.B > 0 && Tight(t0.lv, t0.B) && 1 <= h < |t0.lv| && Growing(t, t0, h)
    ensures Up(|t0.lv[0]|, t.B, h) < |t.lv[h]|
    ensures Up(|t0.lv[0]|, t.B, h - 1) <= |t.lv[h - 1]| <= Up(|t0.lv[0]|, t.B, h - 1) + 1
    ensures |t.lv[h - 1]| == Up(|t0.lv[0]|, t.B, h - 1) + 1 ==> Growing(t, t0, h - 1)
  {
    hide Sound, Owned, OnlyPagesChanged;
    NextInLayer(t0.lv, t0.B, h - 1);
  }

  lemma GrowEntry(t: Tree, t0: Tree, h: nat, p: nat, c: nat, b: nat)
    requires |t0.lv| > 0 && t0.B > 0 && 1 <= h < |t0.lv| && Growing(t, t0, h) && b in t.free
    requires |t.lv[h - 1]| == Up(|t0.lv[0]|, t.B, h - 1)
    requires Up(|t0.lv[0]|, t.B, h) < |t.lv[h]| && p == t.lv[h][Up(|t0.lv[0]|, t.B, h)]
    requires c == PageSlot(Up(|t0.lv[0]|, t.B, h - 1), t.B)
    ensures var s := Prepared(t.store, b, t.B, h > 1); b < WORD && p in s && 4 * c + 4 <= |s[p]|
    ensures Growing(AtEntry(t, h - 1, p, c, b), t0, h - 1)
  {
    hide Sound, Owned, OnlyPagesChanged;
    SoundAtEntry(t, h - 1, b);
    var t' := AtEntry(t, h - 1, p, c, b);
    assert t'.lv[h - 1] == t.lv[h - 1] + [b];
    PagesChangedTrans(t0.store, t.store, t'.store, t.lv, t'.lv);
  }

  /** A tree of depth 0 keeps its blocks in the inode itself. */
  lemma GrowFlat(t: Tree, b: nat)
    requires |t.lv| > 0 && WellFormed(t, 0, |t.lv[0]|) && |t.lv[0]| < ROOTS && b in t.free
    ensures |t.roots| == ROOTS
    ensures WellFormed(AtRoot(t, b), 0, |t.lv[0]| + 1)
    ensures AtRoot(t, b).lv == [t.lv[0] + [b]] && Extends(AtRoot(t, b).lv, t.lv)
    ensures Conserved(AtRoot(t, b), t) && OnlyPagesChanged(t.store, AtRoot(t, b).store, AtRoot(t, b).lv)
  {
    SoundAtRoot(t, b);
  }

  /** At the bottom the tree is tight again and one block longer. */
  lemma GrownWhole(t: Tree, t0: Tree, b: nat)
    requires |t0.lv| > 0 && t0.B > 0 && Growing(t, t0, 0)
    requires |t0.lv[0]| < |t.lv[0]| && t.lv[0][|t0.lv[0]|] == b
    ensures t.lv[0] == t0.lv[0] + [b]
    ensures WellFormed(t, |t0.lv| - 1, |t0.lv[0]| + 1)
  {
    hide Sound, OnlyPagesChanged, Owned;
    var n := |t0.lv[0]|;
    assert |t.lv[0]| == Up(n, t.B, 0) + 1 == n + 1;
    forall j | 0 < j < |t.lv| ensures |t.lv[j]| == CeilDiv(|t.lv[j - 1]|, t.B) {
      CeilDivStep(Up(n, t.B, j - 1), t.B);
    }
  }

  lemma ConservedCount(t: Tree, t0: Tree)
    requires Sound(t) && Sound(t0) && Conserved(t, t0)
    ensures |t.free| + |Owned(t.lv)| == |t0.free| + |Owned(t0.lv)|
  {
    hide Rep, Owned;
    assert |t.free| + |Owned(t.lv)| == |t.free + Owned(t.lv)|;
    assert |t0.free| + |Owned(t0.lv)| == |t0.free + Owned(t0.lv)|;
  }

  /** An append that succeeded had the blocks for it ... */
  lemma RoomTaken(t: Tree, t0: Tree)
    requires |t0.lv| > 0 && t0.B > 0 && WellFormed(t0, |t0.lv| - 1, |t0.lv[0]|)
    requires WellFormed(t, |t0.lv| - 1, |t0.lv[0]| + 1) && t.B == t0.B && Conserved(t, t0)
    ensures |t0.free| + TreeSize(|t0.lv[0]|, t0.B, |t0.lv| - 1) >= TreeSize(|t0.lv[0]| + 1, t0.B, |t0.lv| - 1)
  {
    hide WellFormed, Sound, Owned, TreeSize, Conserved, Tight, Distinct, Shaped;
    WellFormedFacts(t, |t0.lv| - 1, |t0.lv[0]| + 1);
    WellFormedFacts(t0, |t0.lv| - 1, |t0.lv[0]|);
    ConservedCount(t, t0);
    SoundFacts(t);
    SoundFacts(t0);
    OwnedCount(t0.lv, t0.B);
    OwnedCount(t.lv, t.B);
  }

  /** ... and one that ran out did not. */
  lemma RoomShort(t: Tree, t0: Tree, h: nat)
    requires |t0.lv| > 0 && t0.B > 0 && WellFormed(t0, |t0.lv| - 1, |t0.lv[0]|)
    requires Growing(t, t0, h) && h > 0 && t.free == {}
    ensures |t0.free| + TreeSize(|t0.lv[0]|, t0.B, |t0.lv| - 1) < TreeSize(|t0.lv[0]| + 1, t0.B, |t0.lv| - 1)
  {
    hide WellFormed, Growing, Sound, Owned, TreeSize, Conserved, Tight, Distinct, Shaped, CeilDiv, Pow, Up;
    var n := |t0.lv[0]|;
    WellFormedFacts(t0, |t0.lv| - 1, n);
    GrowingFacts(t, t0, h);
    ConservedCount(t, t0);
    SoundFacts(t);
    SoundFacts(t0);
    OwnedCount(t0.lv, t0.B);
    forall j | 0 < j < |t.lv| ensures Pow(t.B, j) > 0 && |t.lv[j]| <= CeilDiv(n + 1, Pow(t.B, j)) {
      LayerBound(t, t0, h, j);
    }
    OwnedBound(t.lv, t.B, n + 1);
  }

  lemma LayerBound(t: Tree, t0: Tree, h: nat, j: nat)
    requires |t0.lv| > 0 && t0.B > 0 && Tight(t0.lv, t0.B) && Growing(t, t0, h) && j < |t0.lv|
    ensures Pow(t.B, j) > 0 && |t.lv[j]| <= CeilDiv(|t0.lv[0]| + 1, Pow(t.B, j))
  {
    hide Sound, Owned, OnlyPagesChanged, Pow, Conserved;
    NextInLayer(t0.lv, t0.B, j);
    UpIsShift(|t0.lv[0]|, t.B, j);
    CeilDivStep(|t0.lv[0]|, Pow(t.B, j));
  }

  // ---------------------------------------------------------- gaining a level

  function Deepened(t: Tree, b: nat, page: Block): Tree {
    t.(free := t.free - {b}, store := t.store[b := page], roots := Zeros(ROOTS)[0 := b], lv := t.lv + [[b]])
  }

  lemma CeilOne(n: nat, B: nat)
    requires 1 <= n <= B
    ensures CeilDiv(n, B) == 1
  {
    CeilDivChar(n, B, 1);
  }

  lemma TightDeepened(lv: Layers, B: nat, b: nat)
    requires B >= ROOTS && |lv| > 0 && Tight(lv, B) && 1 <= |lv[|lv| - 1]| <= ROOTS
    ensures Tight(lv + [[b]], B)
  {
    var lv' := lv + [[b]];
    CeilOne(|lv[|lv| - 1]|, B);
    forall j | 0 < j < |lv'| ensures |lv'[j]| == CeilDiv(|lv'[j - 1]|, B) {
      if j < |lv| { assert |lv[j]| == CeilDiv(|lv[j - 1]|, B); }
    }
  }

  /** Moving the root entries into one new page keeps every layer. */
  lemma SoundDeepened(t: Tree, depth: nat, blocks: nat, b: nat, page: Block)
    requires WellFormed(t, depth, blocks) && b in t.free && |t.lv[|t.lv| - 1]| >= 1
    requires |page| == 4 * t.B && Ptrs(page) == t.roots + Zeros(t.B - ROOTS)
    ensures WellFormed(Deepened(t, b, page), depth + 1, blocks)
    ensures Conserved(Deepened(t, b, page), t) && Extends(Deepened(t, b, page).lv, t.lv)
    ensures OnlyPagesChanged(t.store, Deepened(t, b, page).store, Deepened(t, b, page).lv)
  {
    hide Tight;
    var t' := Deepened(t, b, page);
    WellFormedFacts(t, depth, blocks);
    OwnsMember(t.lv, b);
    assert PagesOf(t'.store) == PagesOf(t.store)[b := Ptrs(page)];
    assert SameBut(PagesOf(t.store), PagesOf(t'.store), t.lv, 0);
    RepDeepen(PagesOf(t.store), t.roots, t.lv, t.B, b, PagesOf(t'.store), t'.roots);
    TightDeepened(t.lv, t.B, b);
    assert t'.lv[|t.lv|][0] == b;
  }

  /** How full a tree of this depth can be, and where its next block goes. */
  lemma Capacity(t: Tree, depth: nat, blocks: nat)
    requires WellFormed(t, depth, blocks)
    ensures t.B > 0 && blocks <= ROOTS * Pow(t.B, depth)
    ensures blocks < ROOTS * Pow(t.B, depth) ==> Up(blocks, t.B, depth) < ROOTS
    ensures blocks == ROOTS * Pow(t.B, depth) ==>
              |t.lv[depth]| >= 1 && Up(blocks, t.B, depth + 1) < ROOTS
  {
    hide WellFormed, Sound, Tight;
    WellFormedFacts(t, depth, blocks);
    var p := Pow(t.B, depth);
    PowPositive(t.B, depth);
    if blocks > 0 {
      UpInLayer(t.lv, t.B, blocks - 1, depth);
      UpIsShift(blocks - 1, t.B, depth);
      MulDiv(blocks - 1, ROOTS, p);
    }
    UpIsShift(blocks, t.B, depth);
    if blocks < ROOTS * p {
      DivBelow(blocks, ROOTS, p);
    } else {
      DivModUnique(blocks, ROOTS, 0, p);
      assert Up(blocks, t.B, depth + 1) == ROOTS / t.B;
      DivBelow(ROOTS, 2, t.B);
    }
  }

  lemma {:induction false} TreeSizeGrows(n: nat, B: nat, depth: nat)
    requires B > 0
    ensures TreeSize(n + 1, B, depth) >= TreeSize(n, B, depth) + 1
    ensures TreeSize(n + 1, B, depth + 1) >= TreeSize(n, B, depth) + 1
  {
    PowPositive(B, depth + 1);
    if depth > 0 {
      PowPositive(B, depth);
      TreeSizeGrows(n, B, depth - 1);
      CeilDivStep(n, Pow(B, depth));
    }
  }

  // ------------------------------------------------------------- truncating

  lemma PagesCleared(store: map<nat, Block>, p: nat, from: nat, count: nat)
    requires p in store && 4 * (from + count) <= |store[p]|
    ensures |ClearPtrs(store[p], from, count)| == |store[p]|
    ensures PagesOf(store[p := ClearPtrs(store[p], from, count)]) ==
            PagesOf(store)[p := Ptrs(store[p])[..from] + Zeros(count) + Ptrs(store[p])[from + count..]]
  {
    PtrsClear(store[p], from, count);
    assert Ptrs(ClearPtrs(store[p], from, count)) ==
           Ptrs(store[p])[..from] + Zeros(count) + Ptrs(store[p])[from + count..];
  }

  function CutFromPage(t: Tree, j: nat, n: nat, p: nat, from: nat): Tree
    requires j < |t.lv| && n <= |t.lv[j]| && p in t.store && 4 * (from + |t.lv[j]| - n) <= |t.store[p]|
  {
    t.(free := t.free + Elements(t.lv[j][n..]),
       store := t.store[p := ClearPtrs(t.store[p], from, |t.lv[j]| - n)],
       lv := Cut(t.lv, j, n))
  }

  function CutFromRoot(t: Tree, n: nat): Tree
    requires |t.lv| > 0 && n <= |t.lv[|t.lv| - 1]| <= |t.roots|
  {
    var j := |t.lv| - 1;
    t.(free := t.free + Elements(t.lv[j][n..]),
       roots := t.roots[..n] + Zeros(|t.lv[j]| - n) + t.roots[|t.lv[j]|..],
       lv := Cut(t.lv, j, n))
  }

  /** The tail of layer j, all in page q above and without children, is given
      back and its entries are cleared. */
  lemma SoundCutFromPage(t: Tree, j: nat, n: nat, q: nat)
    requires Sound(t) && j + 1 < |t.lv| && n <= |t.lv[j]| && (j > 0 ==> |t.lv[j - 1]| <= n * t.B)
    requires q < |t.lv[j + 1]| && q * t.B <= n && |t.lv[j]| <= q * t.B + t.B
    ensures var p := t.lv[j + 1][q];
            && p in t.store && |t.store[p]| == 4 * t.B
            && Sound(CutFromPage(t, j, n, p, n - q * t.B)) && Conserved(CutFromPage(t, j, n, p, n - q * t.B), t)
            && p in Owned(t.lv)
    ensures Elements(t.lv[j][n..]) <= Owned(t.lv)
  {
    hide Distinct, Shaped, ClearPtrs, Ptrs;
    var p, from := t.lv[j + 1][q], n - q * t.B;
    assert p in PagesOf(t.store) && p in Owned(t.lv);
    PagesCleared(t.store, p, from, |t.lv[j]| - n);
    var t' := CutFromPage(t, j, n, p, from);
    RepCut(PagesOf(t.store), t.roots, t.lv, t.B, j, n, q, PagesOf(t'.store), t'.roots);
    OwnedPositive(t.lv);
  }

  lemma OwnedPositive(lv: Layers)
    requires Distinct(lv)
    ensures forall b :: b in Owned(lv) ==> b > 0
  {}

  lemma SoundCutFromRoot(t: Tree, n: nat)
    requires Sound(t) && n <= |t.lv[|t.lv| - 1]| && (|t.lv| > 1 ==> |t.lv[|t.lv| - 2]| <= n * t.B)
    ensures |t.lv[|t.lv| - 1]| <= |t.roots|
    ensures Sound(CutFromRoot(t, n)) && Conserved(CutFromRoot(t, n), t)
    ensures Elements(t.lv[|t.lv| - 1][n..]) <= Owned(t.lv)
  {
    hide Distinct;
    var j, t' := |t.lv| - 1, CutFromRoot(t, n);
    assert SameBut(PagesOf(t.store), PagesOf(t'.store), t.lv, 0);
    RepCut(PagesOf(t.store), t.roots, t.lv, t.B, j, n, 0, PagesOf(t'.store), t'.roots);
    OwnedPositive(t.lv);
  }

  /** t0 with its layers below h cut back to those of n blocks, the others to
      those of m blocks. */
  ghost predicate Trimming(t: Tree, t0: Tree, m: nat, n: nat, h: nat)
    requires t.B > 0
  {
    && Sound(t) && Conserved(t, t0)
    && t.B == t0.B && t.count == t0.count && |t.lv| == |t0.lv| && t0.free <= t.free
    && OnlyPagesChanged(t0.store, t.store, t0.lv)
    && forall j :: 0 <= j < |t.lv| ==>
                     var len := Over(if j < h then n else m, t.B, j);
                     len <= |t0.lv[j]| && t.lv[j] == t0.lv[j][..len]
  }

  /** Between iterations: exactly the tree of the first m blocks. */
  ghost predicate Trimmed(t: Tree, t0: Tree, m: nat)
    requires t.B > 0
  {
    Trimming(t, t0, m, m, 0)
  }

  /** Half-way through a climb: the node above the last data block in layer h
      has been given back but is still linked from above. */
  ghost predicate Unlinking(t: Tree, t0: Tree, m: nat, n: nat, h: nat)
    requires t.B > 0
  {
    && m > 0 && 0 < h < |t.lv|
    && Over(n, t.B, h) == Up(m - 1, t.B, h) < |t.lv[h]|
    && var b := t.lv[h][Up(m - 1, t.B, h)];
       b in t.free && b !in t0.free && Trimming(t.(free := t.free - {b}), t0, m, n, h)
  }

  lemma TrimmingFacts(t: Tree, t0: Tree, m: nat, n: nat, h: nat)
    requires t.B > 0 && Trimming(t, t0, m, n, h)
    ensures Sound(t) && Conserved(t, t0) && |t.lv| == |t0.lv| && t.B == t0.B && t.count == t0.count
    ensures forall j :: 0 <= j < |t.lv| ==> |t.lv[j]| == Over(if j < h then n else m, t.B, j)
    ensures t0.free <= t.free && OnlyPagesChanged(t0.store, t.store, t0.lv)
  {}

  lemma TrimmedStart(t: Tree, depth: nat, blocks: nat)
    requires WellFormed(t, depth, blocks)
    ensures t.B > 0 && Trimmed(t, t, blocks)
  {
    forall j | 0 <= j < |t.lv| ensures |t.lv[j]| == Over(blocks, t.B, j) {
      TightIsOver(t.lv, t.B, j);
    }
  }

  /** Clearing the tail of the data layer in its last leaf page. */
  lemma TrimData(t: Tree, t0: Tree, m: nat, n: nat, q: nat)
    requires t.B > 0 && Trimmed(t, t0, m) && |t.lv| > 1 && n < m && q == (m - 1) / t.B && q * t.B <= n
    ensures q < |t.lv[1]| && |t.lv[0]| == m && m - q * t.B <= t.B
    ensures t.lv[1][q] in t.store && |t.store[t.lv[1][q]]| == 4 * t.B
    ensures Trimming(CutFromPage(t, 0, n, t.lv[1][q], n - q * t.B), t0, m, n, 1)
    ensures Elements(t.lv[0][n..]) <= Owned(t.lv)
  {
    hide Sound, Owned, OnlyPagesChanged, Up;
    LastLeaf(m, t.B);
    TrimmingFacts(t, t0, m, m, 0);
    SoundCutFromPage(t, 0, n, q);
    var p := t.lv[1][q];
    var t' := CutFromPage(t, 0, n, p, n - q * t.B);
    PageIsPage(t, t0, m, m, 0, 1, q);
    PageWritten(t0.store, t.store, t'.store, t0.lv, p);
    assert Over(n, t.B, 0) == n;
    assert t'.lv[0] == t0.lv[0][..n];
  }

  lemma PageWritten(s0: map<nat, Block>, s: map<nat, Block>, s': map<nat, Block>, lv: Layers, p: nat)
    requires OnlyPagesChanged(s0, s, lv) && IsPage(lv, p) && p in s && p in s' && s' == s[p := s'[p]]
    ensures OnlyPagesChanged(s0, s', lv)
  {}

  lemma OwnedHas(lv: Layers, j: nat, i: nat)
    requires j < |lv| && i < |lv[j]|
    ensures lv[j][i] in Owned(lv)
  {}

  lemma PageIsPage(t: Tree, t0: Tree, m: nat, n: nat, h: nat, j: nat, i: nat)
    requires t.B > 0 && Trimming(t, t0, m, n, h) && 1 <= j < |t.lv| && i < |t.lv[j]|
    ensures IsPage(t0.lv, t.lv[j][i])
  {
    assert t.lv[j][i] == t0.lv[j][i];
  }

  /** Where the sizes agree from h up, trimming below h was all there was. */
  lemma TrimmingAll(t: Tree, t0: Tree, m: nat, n: nat, h: nat)
    requires t.B > 0 && Trimming(t, t0, m, n, h)
    requires h < |t.lv| ==> Over(m, t.B, h) == Over(n, t.B, h)
    ensures Trimmed(t, t0, n)
  {
    hide Sound, Owned, OnlyPagesChanged, Over;
    forall j | 0 <= j < |t.lv|
      ensures var len := Over(n, t.B, j); len <= |t0.lv[j]| && t.lv[j] == t0.lv[j][..len]
    {
      if h <= j { OverAgree(m, n, t.B, h, j); }
    }
  }

  /** Giving back the leaf page that lost all its entries starts a climb. */
  lemma UnlinkLeaf(t: Tree, t0: Tree, m: nat, n: nat)
    requires t.B > 0 && m > 0 && |t.lv| > 1 && n == (m - 1) / t.B * t.B && Trimming(t, t0, m, n, 1) && Sound(t0)
    ensures (m - 1) / t.B < |t.lv[1]|
    ensures var p := t.lv[1][(m - 1) / t.B];
            p !in t.free && p < t.count && Unlinking(t.(free := t.free + {p}), t0, m, n, 1)
  {
    hide Sound, Owned, OnlyPagesChanged;
    var q := (m - 1) / t.B;
    LastLeaf(m, t.B);
    TrimmingFacts(t, t0, m, n, 1);
    CeilDivChar(n, t.B, q);
    assert Over(n, t.B, 1) == CeilDiv(Over(n, t.B, 0), t.B) == q;
    UnlinkNode(t, t0, m, n, 1, q);
  }

  lemma UnlinkNode(t: Tree, t0: Tree, m: nat, n: nat, h: nat, u: nat)
    requires t.B > 0 && m > 0 && 0 < h < |t.lv| && Trimming(t, t0, m, n, h) && Sound(t0)
    requires u == Up(m - 1, t.B, h) == Over(n, t.B, h) && u < |t.lv[h]|
    ensures var p := t.lv[h][u]; p !in t.free && p < t.count && Unlinking(t.(free := t.free + {p}), t0, m, n, h)
  {
    hide Rep, Owned, OnlyPagesChanged, Over, Up;
    var p := t.lv[h][u];
    OwnedHas(t.lv, h, u);
    assert t0.lv[h][u] == p;
    OwnedHas(t0.lv, h, u);
    assert t.free + {p} - {p} == t.free;
    assert t.(free := t.free + {p}).(free := t.free + {p} - {p}) == t;
  }

  lemma UnlinkingOver(t: Tree, t0: Tree, m: nat, n: nat, h: nat)
    requires t.B > 0 && Unlinking(t, t0, m, n, h)
    ensures Over(n, t.B, h) == Up(m - 1, t.B, h) && m > 0
  {}

  /** What a climb does next: the freed node is unlinked from page p above. */
  lemma ClimbPage(t: Tree, t0: Tree, m: nat, n: nat, h: nat)
    requires t.B > 0 && Unlinking(t, t0, m, n, h) && h + 1 < |t.lv|
    ensures var u, v := Up(m - 1, t.B, h), Up(m - 1, t.B, h + 1);
            && v < |t.lv[h + 1]| && u < |t.lv[h]|
            && var p, c := t.lv[h + 1][v], PageSlot(u, t.B);
               && p in t.store && p < t.count && |t.store[p]| == 4 * t.B && 4 * c + 4 <= |t.store[p]|
               && Trimming(t.(store := t.store[p := SetPtr(t.store[p], c, 0)], lv := Cut(t.lv, h, u)), t0, m, n, h + 1)
  {
    hide Sound, Owned, OnlyPagesChanged, Over, SetPtr, ClearPtrs, Up, PageSlot;
    var u, v := Up(m - 1, t.B, h), Up(m - 1, t.B, h + 1);
    var b := t.lv[h][u];
    var s := t.(free := t.free - {b});
    TrimmingFacts(s, t0, m, n, h);
    OverIsUp(m, t.B, h);
    OverIsUp(m, t.B, h + 1);
    OverBelow(n, t.B, h);
    SlotInPage(m - 1, t.B, h);
    SoundCutFromPage(s, h, u, v);
    var p, c := t.lv[h + 1][v], PageSlot(u, t.B);
    ClearOne(t.store[p], c);
    assert t.lv[h][u..] == [b] && Elements([b]) == {b};
    var t' := CutFromPage(s, h, u, p, c);
    assert t' == t.(store := t.store[p := SetPtr(t.store[p], c, 0)], lv := Cut(t.lv, h, u));
    PageIsPage(s, t0, m, n, h, h + 1, v);
    PageWritten(t0.store, s.store, t'.store, t0.lv, p);
    TrimmingCut(s, t', t0, m, n, h, u);
  }

  /** A node's place in its page, counted from the first node of the page. */
  lemma SlotInPage(x: nat, B: nat, h: nat)
    requires B > 0
    ensures var u, v := Up(x, B, h), Up(x, B, h + 1); u == v * B + PageSlot(u, B) < v * B + B
  {
    DivFacts(Up(x, B, h), B);
  }

  lemma OverBelow(n: nat, B: nat, h: nat)
    requires B > 0 && h > 0
    ensures Over(n, B, h - 1) <= Over(n, B, h) * B
  {
    CeilDivChar(Over(n, B, h - 1), B, Over(n, B, h));
  }

  lemma TrimmingCut(s: Tree, t: Tree, t0: Tree, m: nat, n: nat, h: nat, u: nat)
    requires s.B > 0 && Trimming(s, t0, m, n, h) && h < |s.lv| && u == Over(n, s.B, h) <= |s.lv[h]|
    requires Sound(t) && Conserved(t, s) && t.B == s.B && t.count == s.count && s.free <= t.free
    requires t.lv == Cut(s.lv, h, u) && OnlyPagesChanged(t0.store, t.store, t0.lv)
    ensures Trimming(t, t0, m, n, h + 1)
  {
    hide Sound, Owned, OnlyPagesChanged, Over;
    forall j | 0 <= j < |t.lv|
      ensures var len := Over(if j < h + 1 then n else m, t.B, j); len <= |t0.lv[j]| && t.lv[j] == t0.lv[j][..len]
    {
      if j == h { assert t.lv[h] == s.lv[h][..u] == t0.lv[h][..u]; }
    }
  }

  /** At the top the freed page is unlinked from the root array. */
  lemma ClimbRoot(t: Tree, t0: Tree, m: nat, n: nat)
    requires t.B > 0 && |t.lv| > 1 && Unlinking(t, t0, m, n, |t.lv| - 1)
    ensures var h := |t.lv| - 1; var u := Up(m - 1, t.B, h);
            && |t.roots| == ROOTS && u < ROOTS && u < |t.lv[h]|
            && Trimmed(t.(roots := t.roots[u := 0], lv := Cut(t.lv, h, u)), t0, n)
  {
    hide Sound, Owned, OnlyPagesChanged, Over, Up;
    var h := |t.lv| - 1;
    var u := Up(m - 1, t.B, h);
    var b := t.lv[h][u];
    var s := t.(free := t.free - {b});
    TrimmingFacts(s, t0, m, n, h);
    SoundFacts(s);
    OverIsUp(m, t.B, h);
    OverBelow(n, t.B, h);
    SoundCutFromRoot(s, u);
    assert t.lv[h][u..] == [b] && Elements([b]) == {b};
    var t' := CutFromRoot(s, u);
    assert t.roots[..u] + Zeros(1) + t.roots[u + 1..] == t.roots[u := 0];
    assert t' == t.(roots := t.roots[u := 0], lv := Cut(t.lv, h, u));
    TrimmingCut(s, t', t0, m, n, h, u);
    TrimmingAll(t', t0, m, n, h + 1);
  }

  /** After unlinking from a page: either that page is empty too and the climb
      goes on, or the sizes agree from here up and it is over. */
  lemma ClimbOn(t: Tree, t0: Tree, m: nat, n: nat, h: nat)
    requires t.B > 0 && m > 0 && 0 < h < |t.lv| && Trimming(t, t0, m, n, h) && Sound(t0)
    requires Over(n, t.B, h - 1) == Up(m - 1, t.B, h - 1)
    ensures Up(m - 1, t.B, h) < |t.lv[h]|
    ensures Up(m - 1, t.B, h - 1) % t.B != 0 ==> Trimmed(t, t0, n)
    ensures Up(m - 1, t.B, h - 1) % t.B == 0 ==>
              var p := t.lv[h][Up(m - 1, t.B, h)];
              p !in t.free && Unlinking(t.(free := t.free + {p}), t0, m, n, h)
  {
    hide Sound, Owned, OnlyPagesChanged, Trimming, Unlinking;
    TrimmingFacts(t, t0, m, n, h);
    OverIsUp(m, t.B, h);
    CeilDivStep(Up(m - 1, t.B, h - 1), t.B);
    assert Over(n, t.B, h) == CeilDiv(Over(n, t.B, h - 1), t.B);
    if Up(m - 1, t.B, h - 1) % t.B != 0 {
      TrimmingAll(t, t0, m, n, h);
    } else {
      UnlinkNode(t, t0, m, n, h, Up(m - 1, t.B, h));
    }
  }

  /** The pointers that remove_blocks reads out of a leaf page. */
  lemma LeafBlocks(t: Tree, t0: Tree, m: nat, n: nat, q: nat)
    requires t.B > 0 && Trimmed(t, t0, m) && |t.lv| > 1 && n < m && q == (m - 1) / t.B && q * t.B <= n
    ensures q < |t.lv[1]| && t.lv[1][q] in t.store && m == |t.lv[0]| && m <= q * t.B + t.B
    ensures |Ptrs(t.store[t.lv[1][q]])| == t.B
    ensures Ptrs(t.store[t.lv[1][q]])[n - q * t.B..m - q * t.B] == t.lv[0][n..]
  {
    LastLeaf(m, t.B);
    TrimmingFacts(t, t0, m, m, 0);
    var p := t.lv[1][q];
    assert PagesOf(t.store)[p] == Ptrs(t.store[p]) == Image(t.lv[0], q, t.B);
    forall k | n <= k < m ensures Ptrs(t.store[p])[k - q * t.B] == t.lv[0][k] {
      ImageAt(t.lv[0], q, t.B, k - q * t.B);
    }
  }

  /** Blocks of a layer are in use, each once: what free_blocks asks for. */
  lemma TailInUse(t: Tree, j: nat, n: nat)
    requires Sound(t) && j < |t.lv| && n <= |t.lv[j]|
    ensures forall i :: 0 <= i < |t.lv[j][n..]| ==> t.lv[j][n..][i] !in t.free && t.lv[j][n..][i] < t.count
    ensures forall i, i' :: 0 <= i < i' < |t.lv[j][n..]| ==> t.lv[j][n..][i] != t.lv[j][n..][i']
  {
    var tail := t.lv[j][n..];
    forall i | 0 <= i < |tail| ensures tail[i] !in t.free && tail[i] < t.count {
      OwnedHas(t.lv, j, n + i);
    }
    forall i, i' | 0 <= i < i' < |tail| ensures tail[i] != tail[i'] {
      assert t.lv[j][n + i] != t.lv[j][n + i'];
    }
  }

  /** The last of the blocks is gone: all layers are empty and the inode goes
      back to depth 0. */
  lemma TrimmedEmpty(t: Tree, t0: Tree)
    requires t.B > 0 && Trimmed(t, t0, 0)
    ensures WellFormed(t.(lv := [[]]), 0, 0) && Extends(t0.lv, [[]])
    ensures Owned([[]]) == {} && Owned(t.lv) == {}
  {
    forall j | 0 <= j < |t.lv| ensures t.lv[j] == [] { OverZero(t.B, j); }
    assert Owned(t.lv) == {};
    assert Owned([[]]) == {};
  }

  lemma TrimmedWhole(t: Tree, t0: Tree, m: nat)
    requires t.B > 0 && Trimmed(t, t0, m)
    ensures |t.lv| > 0 && WellFormed(t, |t.lv| - 1, m) && m <= |t0.lv[0]| && t.lv[0] == t0.lv[0][..m]
    ensures Extends(t0.lv, t.lv)
  {
    hide Sound, Owned, OnlyPagesChanged, CeilDiv;
    TrimmingFacts(t, t0, m, m, 0);
    SoundFacts(t);
    assert Over(m, t.B, 0) == m;
    forall j | 0 < j < |t.lv| ensures |t.lv[j]| == CeilDiv(|t.lv[j - 1]|, t.B) {
      assert Over(m, t.B, j) == CeilDiv(Over(m, t.B, j - 1), t.B);
    }
  }

  /** The outcome of a truncation: a well-formed tree of the first n blocks;
      everything it no longer owns is free, and nothing else became free. */
  ghost predicate Truncated(t0: Tree, t: Tree, depth0: nat, depth: nat, blocks: nat, n: nat) {
    && |t0.lv| > 0 && n <= |t0.lv[0]|
    && WellFormed(t, depth, blocks) && blocks == n
    && depth == (if n == 0 then 0 else depth0)
    && t.B == t0.B && t.count == t0.count
    && t.lv[0] == t0.lv[0][..n]
    && Extends(t0.lv, t.lv)
    && t0.free <= t.free && Conserved(t, t0)
    && OnlyPagesChanged(t0.store, t.store, t0.lv)
  }

  /** Exactly the blocks that left the tree became free, and the count is the
      difference of the two tree sizes. */
  lemma TruncatedFrees(t0: Tree, t: Tree, depth0: nat, depth: nat, blocks0: nat, n: nat)
    requires WellFormed(t0, depth0, blocks0) && t0.B > 0 && Truncated(t0, t, depth0, depth, n, n)
    ensures t.free == t0.free + (Owned(t0.lv) - Owned(t.lv))
    ensures |t.free| == |t0.free| + TreeSize(blocks0, t0.B, depth0) - TreeSize(n, t0.B, depth)
    ensures n == 0 ==> t.free == t0.free + Owned(t0.lv)
  {
    hide WellFormed, Truncated, Sound, Owned, TreeSize, OnlyPagesChanged, Tight, Distinct, Shaped;
    TruncatedFacts(t0, t, depth0, depth, n);
    WellFormedFacts(t0, depth0, blocks0);
    WellFormedFacts(t, depth, n);
    SoundFacts(t0);
    SoundFacts(t);
    ConservedCount(t, t0);
    OwnedCount(t0.lv, t0.B);
    OwnedCount(t.lv, t.B);
    assert t.free == t0.free + (Owned(t0.lv) - Owned(t.lv));
    if n == 0 {
      EmptyTreeOwnsNothing(t.lv);
    }
  }

  lemma TruncatedFacts(t0: Tree, t: Tree, depth0: nat, depth: nat, n: nat)
    requires Truncated(t0, t, depth0, depth, n, n)
    ensures WellFormed(t, depth, n) && t.B == t0.B && t0.free <= t.free && Conserved(t, t0)
    ensures n == 0 ==> t.lv == [[]]
  {}

  lemma EmptyTreeOwnsNothing(lv: Layers)
    requires lv == [[]]
    ensures Owned(lv) == {}
  {}

  /** expand_inode and then truncate_inode back to the old length restore every
      layer and the free set exactly if the tree was not full, for a level gained
      is not given back, and was not an empty tree with levels, for those go. */
  lemma AppendThenTruncate(t0: Tree, t1: Tree, t2: Tree, depth0: nat, depth1: nat, depth2: nat, blocks: nat, b: nat)
    requires WellFormed(t0, depth0, blocks)
    requires depth1 == depth0 + if blocks == ROOTS * Pow(t0.B, depth0) then 1 else 0
    requires Appended(t0, t1, depth1, blocks + 1, b) && Truncated(t1, t2, depth1, depth2, blocks, blocks)
    ensures t2.lv == t0.lv && t2.free == t0.free <==>
            blocks < ROOTS * Pow(t0.B, depth0) && (blocks == 0 ==> depth0 == 0)
  {
    hide WellFormed, Appended, Truncated, Pow;
    Capacity(t0, depth0, blocks);
    PowPositive(t0.B, depth0);
    SameDepthRestores(t0, t1, t2, depth0, depth1, depth2, blocks, b);
  }

  lemma SameDepthRestores(t0: Tree, t1: Tree, t2: Tree, depth0: nat, depth1: nat, depth2: nat, blocks: nat, b: nat)
    requires WellFormed(t0, depth0, blocks)
    requires Appended(t0, t1, depth1, blocks + 1, b) && Truncated(t1, t2, depth1, depth2, blocks, blocks)
    ensures t2.lv == t0.lv && t2.free == t0.free <==> depth2 == depth0
    ensures depth2 == if blocks == 0 then 0 else depth1
  {
    hide Rep, Owned, OnlyPagesChanged, Over;
    SoundFacts(t0);
    SoundFacts(t2);
    if depth2 == depth0 {
      forall j | 0 <= j < |t0.lv| ensures t2.lv[j] == t0.lv[j] {
        TightIsOver(t0.lv, t0.B, j);
        TightIsOver(t2.lv, t2.B, j);
        assert t0.lv[j] <= t1.lv[j] && t2.lv[j] <= t1.lv[j];
      }
      assert t2.lv == t0.lv;
    }
  }

  lemma TruncatedWhole(t: Tree, t0: Tree, depth: nat, blocks: nat, n: nat)
    requires t.B > 0 && Trimmed(t, t0, n) && WellFormed(t0, depth, blocks)
    ensures Truncated(t0, if n == 0 then t.(lv := [[]]) else t, depth, if n == 0 then 0 else depth, n, n)
  {
    hide Sound, OnlyPagesChanged, Owned, Trimming;
    TrimmingFacts(t, t0, n, n, 0);
    TrimmedWhole(t, t0, n);
    if n == 0 { TrimmedEmpty(t, t0); }
  }

  /** The leaf page of the last of m blocks, and the first block it holds. */
  function LeafOf(m: nat, B: nat): nat
    requires m > 0 && B > 0
  {
    (m - 1) / B
  }

  function LeafStart(m: nat, B: nat): nat
    requires m > 0 && B > 0
  {
    LeafOf(m, B) * B
  }

  lemma LeafDigit(m: nat, B: nat, depth: nat)
    requires m > 0 && B > 0 && depth > 0
    ensures m == LeafStart(m, B) + Digit(m - 1, B, depth, depth) + 1
    ensures Up(m - 1, B, 1) == LeafOf(m, B)
  {
    DivFacts(m - 1, B);
    LastLeaf(m, B);
    UpZero(m - 1, B);
  }

  lemma SameLeaf(m: nat, n: nat, B: nat)
    requires B > 0 && 0 < n < m && LeafStart(m, B) < n
    ensures Over(m, B, 1) == Over(n, B, 1)
  {
    LastLeaf(m, B);
    LastLeaf(n, B);
    var q := (m - 1) / B;
    DivModUnique(n - 1, q, n - 1 - q * B, B);
  }

  lemma LeafSize(t: Tree, t0: Tree, m: nat)
    requires t.B > 0 && Trimmed(t, t0, m) && m > 0 && |t.lv| > 1
    ensures |t.lv[0]| == m && LeafOf(m, t.B) < |t.lv[1]|
  {
    hide Sound, OnlyPagesChanged, Owned;
    LastLeaf(m, t.B);
    TrimmingFacts(t, t0, m, m, 0);
  }

  lemma RootBlocks(t: Tree)
    requires Sound(t) && |t.lv| == 1
    ensures |t.lv[0]| <= ROOTS == |t.roots| && t.roots[..|t.lv[0]|] == t.lv[0]
  {}

  lemma CutFlat(t: Tree, blocks: nat, n: nat)
    requires WellFormed(t, 0, blocks) && n < blocks
    ensures blocks <= |t.roots| && Truncated(t, CutFromRoot(t, n), 0, 0, n, n)
  {
    hide Rep, Owned, OnlyPagesChanged;
    SoundFacts(t);
    SoundCutFromRoot(t, n);
    NothingChanged(t);
  }

  lemma RootsAreBlocks(t: Tree)
    requires Sound(t)
    ensures |t.roots| == ROOTS && forall k :: 0 <= k < ROOTS ==> t.roots[k] < WORD
    ensures |t.lv| > 0 && (|t.lv[|t.lv| - 1]| >= 1 ==> t.roots[0] > 0)
  {
    RootOnPath(t, 0);
    forall k | 0 <= k < ROOTS ensures t.roots[k] < WORD {
      if k < |t.lv[|t.lv| - 1]| { assert t.lv[|t.lv| - 1][k] in Owned(t.lv); }
    }
  }

  lemma DeeperCount(t: Tree, t0: Tree, depth: nat, blocks: nat)
    requires WellFormed(t0, depth, blocks) && WellFormed(t, depth + 1, blocks) && t.B == t0.B && t.B > 0
    requires Conserved(t, t0) && |t.free| + 1 == |t0.free|
    ensures TreeSize(blocks, t.B, depth + 1) == TreeSize(blocks, t.B, depth) + 1
  {
    hide WellFormed, Sound, Owned, TreeSize, Conserved, Tight, Distinct, Shaped;
    WellFormedFacts(t, depth + 1, blocks);
    WellFormedFacts(t0, depth, blocks);
    ConservedCount(t, t0);
    SoundFacts(t);
    SoundFacts(t0);
    OwnedCount(t0.lv, t0.B);
    OwnedCount(t.lv, t.B);
  }

  lemma NothingChanged(t: Tree)
    ensures Conserved(t, t) && Extends(t.lv, t.lv) && OnlyPagesChanged(t.store, t.store, t.lv)
  {}

  lemma AppendedAfter(t0: Tree, t1: Tree, t: Tree, depth: nat, blocks: nat, b: nat)
    requires Appended(t1, t, depth, blocks, b)
    requires |t0.lv| > 0 && t1.B == t0.B && t1.count == t0.count && t1.lv[0] == t0.lv[0] && Extends(t1.lv, t0.lv)
    requires t1.free <= t0.free && Conserved(t1, t0) && OnlyPagesChanged(t0.store, t1.store, t1.lv)
    ensures Appended(t0, t, depth, blocks, b)
  {
    hide WellFormed, Owned, OnlyPagesChanged;
    PagesChangedTrans(t0.store, t1.store, t.store, t1.lv, t.lv);
  }

  /** The next append takes one block and no page. */
  predicate NeedsOne(B: nat, depth: nat, blocks: nat)
    requires B > 0
  {
    if depth == 0 then blocks < ROOTS else PageSlot(blocks, B) != 0
  }

  lemma FullNeedsMore(B: nat, depth: nat)
    requires B > 0
    ensures !NeedsOne(B, depth, ROOTS * Pow(B, depth))
  {
    if depth > 0 {
      var k := ROOTS * Pow(B, depth - 1);
      assert ROOTS * Pow(B, depth) == k * B + 0;
      DivModUnique(ROOTS * Pow(B, depth), k, 0, B);
    }
  }

  /** The entry before the next one in the last leaf page is the last block. */
  lemma LastEntry(t: Tree, blocks: nat, c: nat)
    requires Sound(t) && t.B > 0 && 1 < |t.lv| && blocks == |t.lv[0]| && c == PageSlot(blocks, t.B) && c != 0
    requires Up(blocks, t.B, 1) < |t.lv[1]|
    ensures var p := t.lv[1][Up(blocks, t.B, 1)];
            blocks > 0 && p in t.store && 4 * c <= |t.store[p]| && Ptr(t.store[p], c - 1) == t.lv[0][blocks - 1]
  {
    hide Sound;
    DivFacts(blocks, t.B);
    DivModUnique(blocks - 1, blocks / t.B, c - 1, t.B);
    UpZero(blocks, t.B);
    UpZero(blocks - 1, t.B);
    assert Up(blocks - 1, t.B, 1) == Up(blocks, t.B, 1);
    EntryOnPath(t, blocks - 1, 1);
  }

  /** What the last step of an append finds: the leaf page and the place in it. */
  lemma LeafReady(t: Tree, t0: Tree, depth: nat, blocks: nat, leaf: nat, c: nat)
    requires |t0.lv| > 1 && t0.B > 0 && WellFormed(t0, depth, blocks) && Growing(t, t0, 1)
    requires t.B == t0.B && |t.lv| > 1 && Up(blocks, t.B, 1) < |t.lv[1]| && leaf == t.lv[1][Up(blocks, t.B, 1)]
    requires c == PageSlot(blocks, t.B)
    ensures depth + 1 == |t0.lv| == |t.lv| && blocks == |t0.lv[0]| && Tight(t0.lv, t0.B)
    ensures Up(blocks, t.B, 0) == blocks
    ensures leaf in t.store && 4 * c + 4 <= |t.store[leaf]| == 4 * t.B
    ensures c != 0 && t == t0 ==> blocks > 0 && Ptr(t.store[leaf], c - 1) == t0.lv[0][blocks - 1]
  {
    hide WellFormed, Growing, Sound, Up, Tight, PageSlot, Ptr;
    GrowingFacts(t, t0, 1);
    WellFormedFacts(t0, depth, blocks);
    EntryOnPath(t, blocks, 1);
    UpZero(blocks, t.B);
    if c != 0 && t == t0 { LastEntry(t0, blocks, c); }
  }

  lemma AppendedAtLeaf(t: Tree, t0: Tree, b: nat)
    requires |t0.lv| > 0 && t0.B > 0 && Growing(t, t0, 0) && b in t0.free
    requires |t0.lv[0]| < |t.lv[0]| && t.lv[0][|t0.lv[0]|] == b
    ensures Appended(t0, t, |t0.lv| - 1, |t0.lv[0]| + 1, b)
  {
    hide WellFormed, Growing, Sound, OnlyPagesChanged, Conserved, Extends;
    GrownWhole(t, t0, b);
    GrowingFacts(t, t0, 0);
  }

  /** A block that was neither free nor the tree's own was appended, or the
      tree is no longer sound. */
  ghost predicate Strayed(t0: Tree, t: Tree, b: nat) {
    Sound(t) ==> b !in t0.free && b !in Owned(t0.lv)
  }

  lemma StrayedAt(t: Tree, t1: Tree, t0: Tree, j: nat, b: nat)
    requires b !in t1.free && j < |t1.lv| && t.lv == Append(t1.lv, j, b) && Conserved(t1, t0)
    ensures Strayed(t0, t, b)
  {
    if Sound(t) {
      var n := |t1.lv[j]|;
      forall h, i | 0 <= h < |t1.lv| && 0 <= i < |t1.lv[h]| ensures t1.lv[h][i] != b {
        assert t.lv[h][i] == t1.lv[h][i] && t.lv[j][n] == b;
      }
    }
  }

  /** Linking a free block at the end of the path completes the append. */
  lemma LeafLinked(t: Tree, t0: Tree, leaf: nat, c: nat, b: nat)
    requires |t0.lv| > 1 && t0.B > 0 && Tight(t0.lv, t0.B) && Growing(t, t0, 1) && b in t.free
    requires t.B == t0.B && |t.lv| > 1 && Up(|t0.lv[0]|, t.B, 1) < |t.lv[1]|
    requires leaf == t.lv[1][Up(|t0.lv[0]|, t.B, 1)] && c == PageSlot(|t0.lv[0]|, t.B)
    requires leaf in t.store && 4 * c + 4 <= |t.store[leaf]| == 4 * t.B && b < WORD
    ensures EntryAdded(t, AtEntry(t, 0, leaf, c, b), 0, leaf, c, b)
    ensures Appended(t0, AtEntry(t, 0, leaf, c, b), |t0.lv| - 1, |t0.lv[0]| + 1, b)
  {
    hide Growing, Sound, OnlyPagesChanged, Conserved, Extends, Up, Tight, Owned, PageSlot, EntryAdded, Appended;
    GrowingFacts(t, t0, 1);
    UpZero(|t0.lv[0]|, t.B);
    GrowEntry(t, t0, 1, leaf, c, b);
    EntryIsAdded(t, 1, Up(|t0.lv[0]|, t.B, 1), c, b);
    AppendedAtLeaf(AtEntry(t, 0, leaf, c, b), t0, b);
  }

  lemma SameConserved(t: Tree)
    ensures Conserved(t, t)
  {}

  lemma StrayedFrom(t0: Tree, t1: Tree, t: Tree, b: nat)
    requires Strayed(t1, t, b) && Conserved(t1, t0)
    ensures Strayed(t0, t, b)
  {
    hide Sound, Owned;
  }

  lemma StrayedIsNot(t0: Tree, t: Tree, depth: nat, blocks: nat, b: nat)
    requires Strayed(t0, t, b)
    ensures !Appended(t0, t, depth, blocks, b)
  {
    hide Sound, OnlyPagesChanged, Conserved, Extends, Owned;
  }

  /** Free block b was entered in page p, and zeroed if it is a page itself. */
  ghost predicate EntryAdded(t: Tree, t': Tree, j: nat, p: nat, c: nat, b: nat) {
    && j < |t.lv| && b < WORD && b in t.free && p in t.store && b in t.store && p != b
    && 4 * c + 4 <= |t.store[p]| == |t.store[b]| == 4 * t.B
    && t' == AtEntry(t, j, p, c, b)
  }

  ghost predicate RootAdded(t: Tree, t': Tree, b: nat) {
    && |t.lv| > 0 && |t.lv[|t.lv| - 1]| < |t.roots| && b in t.free && b in t.store && |t.store[b]| == 4 * t.B
    && t' == AtRoot(t, b)
  }

  /** The roots went to the front of a new page, the only root left. */
  ghost predicate RootsMoved(s: map<nat, Block>, dir: seq<nat>, s': map<nat, Block>, dir': seq<nat>, B: nat) {
    && |dir| == |dir'| == ROOTS <= B && dir'[0] in s && dir'[0] in s'
    && s' == s[dir'[0] := s'[dir'[0]]] && |s'[dir'[0]]| == 4 * B && Ptrs(s'[dir'[0]]) == dir + Zeros(B - ROOTS)
  }

  lemma EntryIsAdded(t: Tree, h: nat, i: nat, c: nat, b: nat)
    requires Sound(t) && h < |t.lv| && i < |t.lv[h]| && b in t.free && 0 < h && 4 * c + 4 <= 4 * t.B
    ensures var p := t.lv[h][i];
            && p != b && p in t.store && b in t.store && b < WORD && |t.store[p]| == |t.store[b]| == 4 * t.B
            && EntryAdded(t, AtEntry(t, h - 1, p, c, b), h - 1, p, c, b)
  {
    hide Rep, Owned;
    OwnedHas(t.lv, h, i);
  }

  lemma OneSearch(s: Search)
    ensures Unmisled([s]) <==> !Allocator.Misled(s.pool, s.goal)
    ensures Answered(s) ==> Follow([s])
  {
    hide Allocator.Misled, Answered;
    assert [s][0] == s;
  }

  lemma NoSearch()
    ensures Unmisled([])
  {}

  /** The depth of the tree once the next block is appended. */
  function NextDepth(B: nat, blocks: nat, depth: nat): nat {
    if blocks == ROOTS * Pow(B, depth) then depth + 1 else depth
  }

  lemma InStore(t: Tree, b: nat)
    requires Sound(t) && b < t.count
    ensures b in t.store && b < WORD
  {}

  // ------------------------------------------------------------ the program

  /** The allocator's bitmaps and counts are in order and show these blocks as
      free, whatever its hints are. */
  ghost predicate Linked(p: Allocator.Pool, free: set<nat>, count: nat) {
    Allocator.Consistent(p) && p.total == count && free == Allocator.FreeSet(p)
  }

  /** A search that gives up although its hints are sound leaves nothing free. */
  lemma NothingFree(p: Allocator.Pool, free: set<nat>, count: nat)
    requires Linked(p, free, count) && Allocator.Exhausted(p) && Allocator.HintsSound(p)
    ensures free == {}
  {
    hide Allocator.Consistent, Allocator.FreeSet, Allocator.HintsSound, Allocator.Exhausted;
    Allocator.PassedOverIsFull(p);
  }

  /** Besides, every group is a whole number of bitmap words, so that no search
      for a free block can name one in use. */
  ghost predicate Steady(p: Allocator.Pool, free: set<nat>, count: nat) {
    Linked(p, free, count) && Allocator.Aligned(p)
  }

  /** A search for a free block: the state of the allocator, the goal and what it
      found. */
  datatype Search = Search(pool: Allocator.Pool, goal: nat, found: Option<nat>)

  /** What was found is the allocator's choice for the goal. */
  ghost predicate Answered(s: Search) {
    match s.found
    case None => Allocator.NothingChosen(s.pool, s.goal)
    case Some(b) =>
      exists g: nat, i: nat :: Allocator.Chosen(s.pool, s.goal, g, i) && b == Allocator.Num(s.pool, g, i)
  }

  /** After the first search, each starts behind the block found last. */
  ghost predicate Follow(log: seq<Search>) {
    && (forall k :: 0 <= k < |log| ==> Answered(log[k]))
    && (forall k :: 0 <= k < |log| - 1 ==> log[k].found.Some? && log[k + 1].goal == log[k].found.value + 1)
  }

  /** The lowest page that is there on the path of the next block, from layer h up:
      the search starts behind it, or at the inode's group if there is none. */
  function BehindPage(lv: Layers, B: nat, goal: nat, h: nat): nat
    requires B > 0 && |lv| > 0
    decreases |lv| - h
  {
    if h >= |lv| then goal
    else if Up(|lv[0]|, B, h) < |lv[h]| then lv[h][Up(|lv[0]|, B, h)] + 1
    else BehindPage(lv, B, goal, h + 1)
  }

  /** Where the first search of an append starts: behind the last block if that is in
      the same leaf page. */
  function FirstGoal(lv: Layers, B: nat, goal: nat): nat
    requires B > 0 && |lv| > 0
  {
    if |lv| > 1 && |lv[0]| > 0 && PageSlot(|lv[0]|, B) != 0 then lv[0][|lv[0]| - 1] + 1
    else BehindPage(lv, B, goal, 1)
  }

  /** All searches of an append to these layers. */
  ghost predicate AppendLog(lv: Layers, B: nat, goal: nat, log: seq<Search>) {
    |log| > 0 && |lv| > 0 && B > 0 && Follow(log) && log[0].goal == FirstGoal(lv, B, goal)
  }

  /** All searches of an expansion: where the tree is full, first for a new root page
      next to the old first root, and then those of the append to the deeper tree. */
  ghost predicate ExpandLog(t: Tree, depth: nat, goal: nat, log: seq<Search>) {
    if |t.lv| == 0 || |t.lv[0]| != ROOTS * Pow(t.B, depth) then AppendLog(t.lv, t.B, goal, log)
    else && |log| > 0 && |t.roots| > 0 && log[0].goal + 1 == t.roots[0] && Answered(log[0])
         && (|log| > 1 ==> log[0].found.Some? && AppendLog(t.lv + [[log[0].found.value]], t.B, goal, log[1..]))
  }

  lemma RootLog(lv: Layers, B: nat, goal: nat, log: seq<Search>, r: Option<nat>, offset: nat)
    requires B > 0 && |lv| > 1 && Tight(lv, B) && offset == Up(|lv[0]|, B, |lv| - 1)
    requires if offset < |lv[|lv| - 1]| then r.Some? && log == []
             else |log| == 1 && log[0].goal == goal && log[0].found == r && Answered(log[0])
    ensures r.Some? ==> PathLog(lv, B, goal, log, r.value)
    ensures log != [] ==> AppendLog(lv, B, goal, log) && MissingTo(lv, B, |lv| - 1)
  {
    hide Tight, Answered;
    if log != [] { FirstGoalIs(lv, B, goal, |lv|); }
  }

  lemma RootReached(t: Tree, t0: Tree, goal: nat, log: seq<Search>, r: Option<nat>, stray: bool, offset: nat)
    requires |t0.lv| > 1 && t0.B > 0 && Tight(t0.lv, t0.B) && offset == Up(|t0.lv[0]|, t0.B, |t0.lv| - 1)
    requires t.B == t0.B
    requires if offset < |t0.lv[|t0.lv| - 1]| then r.Some? && t == t0 && log == []
             else |log| == 1 && log[0].goal == goal && log[0].found == r && Answered(log[0])
    requires r.Some? && !stray ==>
               |t.lv| == |t0.lv| && Growing(t, t0, |t0.lv| - 1) && offset < |t.lv[|t0.lv| - 1]| &&
               r.value == t.lv[|t0.lv| - 1][offset]
    ensures log != [] ==> AppendLog(t0.lv, t0.B, goal, log) && PageSlot(|t0.lv[0]|, t0.B) == 0
    ensures r.Some? && !stray ==> Reached(t, t0, |t0.lv| - 1, r.value, goal, log)
  {
    hide Growing, Tight, Answered, PathLog, AppendLog, Up, PageSlot;
    RootLog(t0.lv, t0.B, goal, log, r, offset);
  }

  lemma NextLog(lv: Layers, B: nat, goal: nat, log: seq<Search>, page: nat, more: seq<Search>, r: Option<nat>)
    requires B > 0 && |lv| > 0 && PathLog(lv, B, goal, log, page)
    requires more == [] || (|more| == 1 && Answered(more[0]) && more[0].goal == page + 1 && more[0].found == r)
    requires log == [] && more != [] ==> FirstGoal(lv, B, goal) == page + 1
    requires log != [] ==> more != []
    requires more == [] ==> r.Some?
    ensures r.Some? ==> PathLog(lv, B, goal, log + more, r.value)
    ensures more != [] ==> AppendLog(lv, B, goal, log + more)
  {
    hide Answered, FirstGoal, AppendLog;
    if more != [] {
      assert more == [more[0]];
      LogOn(lv, B, goal, log, page, more[0]);
    } else {
      assert log + more == [];
    }
  }

  /** The searches of an append down to a page that is there. */
  ghost predicate PathLog(lv: Layers, B: nat, goal: nat, log: seq<Search>, page: nat) {
    log == [] || (AppendLog(lv, B, goal, log) && log[|log| - 1].found == Some(page))
  }

  lemma LogOn(lv: Layers, B: nat, goal: nat, log: seq<Search>, page: nat, s: Search)
    requires PathLog(lv, B, goal, log, page) && Answered(s) && |lv| > 0 && B > 0
    requires if log == [] then s.goal == FirstGoal(lv, B, goal) else s.goal == page + 1
    ensures AppendLog(lv, B, goal, log + [s])
    ensures s.found.Some? ==> PathLog(lv, B, goal, log + [s], s.found.value)
  {
    hide Answered, FirstGoal;
    if log == [] { assert log + [s] == [s]; }
  }

  /** Below a missing page all pages are missing, and the last leaf page is full. */
  lemma {:induction false} MissingBelow(lv: Layers, B: nat, h: nat)
    requires B > 0 && Tight(lv, B) && 1 <= h < |lv| && |lv[h]| <= Up(|lv[0]|, B, h)
    ensures forall j :: 1 <= j <= h ==> |lv[j]| <= Up(|lv[0]|, B, j)
    ensures PageSlot(|lv[0]|, B) == 0
  {
    var n := |lv[0]|;
    CeilDivStep(Up(n, B, h - 1), B);
    if h > 1 {
      if |lv[h - 1]| > Up(n, B, h - 1) { CeilMonotone(Up(n, B, h - 1) + 1, |lv[h - 1]|, B); }
      MissingBelow(lv, B, h - 1);
    } else {
      UpZero(n, B);
    }
  }

  /** The path of the next block needs pages, all that are below layer h. */
  ghost predicate MissingTo(lv: Layers, B: nat, h: nat) {
    && B > 0 && |lv| > 0 && PageSlot(|lv[0]|, B) == 0
    && forall j :: 1 <= j < |lv| && j < h ==> |lv[j]| <= Up(|lv[0]|, B, j)
  }

  /** The path to the new block has reached this page of layer h. */
  ghost predicate OnPath(t: Tree, t0: Tree, h: nat, page: nat) {
    && |t0.lv| > 0 && t0.B > 0 && t.B == t0.B && h < |t.lv| && Tight(t0.lv, t0.B) && Growing(t, t0, h)
    && Up(|t0.lv[0]|, t.B, h) < |t.lv[h]| && page == t.lv[h][Up(|t0.lv[0]|, t.B, h)]
  }

  /** It has done so with these searches. */
  ghost predicate Reached(t: Tree, t0: Tree, h: nat, page: nat, goal: nat, log: seq<Search>) {
    && OnPath(t, t0, h, page) && PathLog(t0.lv, t0.B, goal, log, page)
    && if log == [] then t == t0 else MissingTo(t0.lv, t0.B, h)
  }

  lemma {:induction false} BehindPageIs(lv: Layers, B: nat, goal: nat, j: nat, h: nat)
    requires B > 0 && |lv| > 0 && j <= h <= |lv| && (forall i :: j <= i < h ==> |lv[i]| <= Up(|lv[0]|, B, i))
    requires h < |lv| ==> Up(|lv[0]|, B, h) < |lv[h]|
    ensures BehindPage(lv, B, goal, j) == if h < |lv| then lv[h][Up(|lv[0]|, B, h)] + 1 else goal
    decreases h - j
  {
    if j < h { BehindPageIs(lv, B, goal, j + 1, h); }
  }

  /** The first goal where the page of layer h - 1 is missing and that of layer h is
      there, or all are missing. */
  lemma FirstGoalIs(lv: Layers, B: nat, goal: nat, h: nat)
    requires B > 0 && Tight(lv, B) && 2 <= h <= |lv| && |lv[h - 1]| <= Up(|lv[0]|, B, h - 1)
    requires h < |lv| ==> Up(|lv[0]|, B, h) < |lv[h]|
    ensures FirstGoal(lv, B, goal) == if h < |lv| then lv[h][Up(|lv[0]|, B, h)] + 1 else goal
    ensures MissingTo(lv, B, h)
  {
    hide Tight, Up;
    MissingBelow(lv, B, h - 1);
    BehindPageIs(lv, B, goal, 1, h);
  }

  lemma ReachedLeaf(t: Tree, t0: Tree, page: nat, goal: nat, log: seq<Search>)
    requires Reached(t, t0, 1, page, goal, log)
    ensures |t0.lv| > 1 && |t.lv| > 1 && t0.B > 0 && t.B == t0.B && Growing(t, t0, 1)
    ensures Up(|t0.lv[0]|, t.B, 1) < |t.lv[1]| && page == t.lv[1][Up(|t0.lv[0]|, t.B, 1)]
    ensures PathLog(t0.lv, t0.B, goal, log, page)
    ensures if log == [] then t == t0 && PageSlot(|t0.lv[0]|, t0.B) != 0 else PageSlot(|t0.lv[0]|, t0.B) == 0
  {
    hide Growing, PathLog, PageSlot, Up, Tight;
    GrowingFacts(t, t0, 1);
    if log == [] { LeafThere(t0.lv, t0.B); }
  }

  /** If the leaf page is there, it has room behind the last block. */
  lemma LeafThere(lv: Layers, B: nat)
    requires B > 0 && Tight(lv, B) && |lv| > 1 && Up(|lv[0]|, B, 1) < |lv[1]|
    ensures PageSlot(|lv[0]|, B) != 0 && |lv[0]| > 0
  {
    UpZero(|lv[0]|, B);
    CeilDivStep(|lv[0]|, B);
  }

  ghost predicate Unmisled(log: seq<Search>) {
    forall k :: 0 <= k < |log| ==> !Allocator.Misled(log[k].pool, log[k].goal)
  }

  lemma UnmisledBoth(a: seq<Search>, b: seq<Search>)
    ensures Unmisled(a + b) <==> Unmisled(a) && Unmisled(b)
  {
    hide Allocator.Misled;
    forall k | 0 <= k < |a| ensures (a + b)[k] == a[k] {}
    forall k | 0 <= k < |b| ensures (a + b)[|a| + k] == b[k] {}
  }

  /** The bitmap has the block as in use. */
  predicate InUse(p: Allocator.Pool, b: nat) {
    && p.per > 0 && Allocator.GroupOf(p, b) < |p.maps|
    && Allocator.IndexOf(p, b) < |p.maps[Allocator.GroupOf(p, b)].bits|
    && p.maps[Allocator.GroupOf(p, b)].bits[Allocator.IndexOf(p, b)]
  }

  lemma InUseIs(p: Allocator.Pool, b: nat)
    requires Allocator.Consistent(p) && b < p.total
    ensures InUse(p, b) <==> b !in Allocator.FreeSet(p)
  {
    Allocator.Locate(p, b);
  }

  class Volume {
    const logPtrs: nat
    const blockCount: nat
    const fs: Allocator.Filesystem
    var store: map<nat, Block>
    ghost var free: set<nat>

    constructor (logPtrs: nat, blockCount: nat, fs: Allocator.Filesystem, store: map<nat, Block>)
      ensures this.logPtrs == logPtrs && this.blockCount == blockCount && this.fs == fs
      ensures this.store == store && this.free == Allocator.FreeSet(fs.blocks)
    {
      this.logPtrs, this.blockCount, this.fs, this.store := logPtrs, blockCount, fs, store;
      this.free := Allocator.FreeSet(fs.blocks);
    }

    /** Pointers in a directory page. */
    function PtrsPerBlock(): (B: nat)
      ensures B > 0
    {
      PowPositive(2, logPtrs);
      Pow(2, logPtrs)
    }

    ghost predicate IsLinked()
      reads this, fs
    {
      Linked(fs.blocks, free, blockCount)
    }

    ghost predicate IsSteady()
      reads this, fs
    {
      Steady(fs.blocks, free, blockCount)
    }

    ghost predicate Valid()
      reads this, fs
    {
      VolumeSound(blockCount, PtrsPerBlock(), store, free) && IsLinked()
    }

    /** new_block, as the allocator does it: the result is a free block exactly
        if the search is not misled; stray tells if not. Running out stops the
        program, which the model shows as None. */
    method NewBlock(goal: nat) returns (r: Option<nat>, stray: bool)
      requires IsLinked()
      modifies this`free, fs`blocks
      ensures stray <==> r.Some? && r.value !in old(free)
      ensures stray <==> Allocator.Misled(old(fs.blocks), goal)
      ensures r.Some? ==> r.value !in free && r.value < blockCount
      ensures r.Some? && !stray ==>
                IsLinked() && free == old(free) - {r.value} && Allocator.HintsKept(old(fs.blocks), fs.blocks)
      ensures r.None? <==> Allocator.NothingChosen(old(fs.blocks), goal)
      ensures Answered(Search(old(fs.blocks), goal, r))
      ensures r.None? ==> free == old(free) && fs.blocks == old(fs.blocks) && Allocator.Exhausted(fs.blocks)
      ensures Allocator.HintsSound(old(fs.blocks)) && r.None? ==> free == {}
      ensures goal in old(free) ==> r == Some(goal)
      ensures old(IsSteady()) ==> IsSteady() && !stray
    {
      hide Allocator.Consistent, Allocator.HintsSound, Allocator.HintsKnown, Allocator.FreeSet, Allocator.GoalMisled,
           Allocator.Aligned, Allocator.SameShape, Allocator.Chosen, Allocator.Exhausted, InUse;
      ghost var g, i;
      var p := fs.blocks;
      r, g, i := fs.NewBlock(goal);
      stray := r.Some? && InUse(p, r.value);
      SameAligned(p, fs.blocks);
      if r.Some? { InUseIs(p, r.value); } else { Allocator.NothingNamed(p, goal, 0, 0); }
      free := Allocator.FreeSet(fs.blocks);
      if Allocator.Aligned(p) { Allocator.AlignedNeverMisled(p, goal); }
      if r.None? && Allocator.HintsSound(p) { NothingFree(p, free, blockCount); }
    }

    /** free_blocks: only blocks in use are given back, each once. */
    method FreeBlocks(blocks: seq<nat>)
      requires IsLinked()
      requires forall i :: 0 <= i < |blocks| ==> blocks[i] < blockCount && blocks[i] !in free
      requires forall i, i' :: 0 <= i < i' < |blocks| ==> blocks[i] != blocks[i']
      modifies this`free, fs`blocks
      ensures IsLinked() && free == old(free) + Elements(blocks)
      ensures Allocator.HealthKept(old(fs.blocks), fs.blocks)
    {
      hide Allocator.Consistent, Allocator.HintsSound, Allocator.HintsKnown, Allocator.FreeSet, Allocator.Aligned,
           Allocator.SameShape;
      fs.FreeBlocks(blocks);
      free := free + Elements(blocks);
      SameAligned(old(fs.blocks), fs.blocks);
    }
  }

  class Inode {
    const vol: Volume
    const goal: nat  // first block of the group that holds the inode
    var depth: nat
    var blocks: nat
    var blockdir: seq<nat>
    ghost var layers: Layers

    /** An empty inode descriptor. */
    constructor (vol: Volume, goal: nat)
      requires vol.Valid()
      ensures this.vol == vol && this.goal == goal && Valid() && Blocks() == [] && depth == 0
    {
      this.vol, this.goal, depth, blocks := vol, goal, 0, 0;
      blockdir := Zeros(ROOTS);
      layers := [[]];
    }

    function B(): (b: nat)
      ensures b > 0
    {
      vol.PtrsPerBlock()
    }

    ghost function State(): Tree
      reads this, vol
    {
      Tree(vol.blockCount, B(), vol.store, vol.free, blockdir, layers)
    }

    ghost predicate Valid()
      reads this, vol, vol.fs
    {
      WellFormed(State(), depth, blocks) && vol.IsLinked()
    }

    /** Where the search for the next block starts if one block is all it takes:
        at the group that holds the inode, or behind the last block. */
    ghost function NextGoal(): nat
      reads this
    {
      if depth == 0 || |Blocks()| == 0 then goal else Blocks()[|Blocks()| - 1] + 1
    }

    /** The file's blocks in order: what the directory tree stands for. */
    ghost function Blocks(): seq<nat>
      reads this
    {
      if |layers| > 0 then layers[0] else []
    }

    method SplitLevels(iblock: nat) returns (offsets: seq<nat>)
      ensures |offsets| == depth + 1
      ensures forall d :: 0 <= d <= depth ==> offsets[d] == Digit(iblock, B(), depth, d)
      ensures FromDigits(offsets, B()) == iblock
    {
      hide Shifted, Masked, Pow, Up, Linked, PageSlot;
      ghost var log := vol.logPtrs;
      var shift := depth * vol.logPtrs;
      var rest := iblock;
      ShiftDigit(iblock, log, depth);
      offsets := [Shifted(rest, shift)];
      var d := 1;
      while d <= depth
        invariant 1 <= d <= depth + 1 && |offsets| == d
        invariant shift == (depth - d + 1) * log
        invariant Masked(rest, shift) == Masked(iblock, shift)
        invariant forall k :: 0 <= k < d ==> offsets[k] == Digit(iblock, B(), depth, k)
      {
        rest := Masked(rest, shift);
        ShiftDigit(iblock, log, depth - d);
        shift := shift - vol.logPtrs;
        offsets := offsets + [Shifted(rest, shift)];
        d := d + 1;
      }
      DigitsSpell(offsets, iblock, B(), depth);
      UpZero(iblock, B());
    }

    /** get_inode_block: entry iblock of the file's blocks. Beyond the last one a
        flat tree yields 0 and a deeper one -1, the model's None, as long as the
        root entry on the path is there. */
    method GetInodeBlock(iblock: nat) returns (r: Option<nat>)
      requires Valid()
      requires iblock < blocks || (if depth == 0 then iblock < ROOTS else Up(iblock, B(), depth) < |layers[depth]|)
      ensures iblock < blocks ==> r == Some(Blocks()[iblock])
      ensures iblock >= blocks ==> r == if depth == 0 then Some(0) else None
    {
      hide Sound, Up, Pow, FromDigits, Linked, Tight;
      SoundFacts(State());
      var offsets := SplitLevels(iblock);
      UpZero(iblock, B());
      if iblock < blocks { UpInLayer(layers, B(), iblock, depth); }
      RootOnPath(State(), offsets[0]);
      var block := blockdir[offsets[0]];
      var d := 1;
      while d <= depth
        invariant 1 <= d <= depth + 1
        invariant depth > 0 ==> Up(iblock, B(), depth - d + 1) < |layers[depth - d + 1]|
        invariant depth > 0 ==> block == layers[depth - d + 1][Up(iblock, B(), depth - d + 1)]
        invariant depth == 0 ==> block == Slot(layers[0], iblock)
      {
        ghost var h := depth - d + 1;
        EntryOnPath(State(), iblock, h);
        if iblock < blocks { UpInLayer(layers, B(), iblock, h - 1); }
        block := Ptr(vol.store[block], offsets[d]);
        if block == 0 {
          return None;
        }
        d := d + 1;
      }
      return Some(block);
    }

    /** Write b into the next entry of the root array. */
    method LinkRoot(offset: nat, b: nat, isPage: bool)
      requires |layers| > 0 && offset == |layers[|layers| - 1]| < |blockdir| && isPage == (|layers| > 1)
      requires b !in vol.free
      modifies this`blockdir, this`layers, vol`store
      ensures State() == AtRoot(old(State()), b)
    {
      if isPage { vol.store := vol.store[b := ZeroBytes(4 * B())]; }
      blockdir := blockdir[offset := b];
      layers := Append(layers, |layers| - 1, b);
    }

    /** Write b into the next entry of layer j, in its parent page. */
    method LinkEntry(ghost j: nat, page: nat, offset: nat, b: nat, isPage: bool)
      requires j < |layers| && b < WORD && isPage == (j > 0)
      requires page in vol.store && b in vol.store && 4 * offset + 4 <= |vol.store[page]| == 4 * B()
      requires b !in vol.free
      modifies this`layers, vol`store
      ensures State() == AtEntry(old(State()), j, page, offset, b)
    {
      if isPage { vol.store := vol.store[b := ZeroBytes(4 * B())]; }
      vol.store := vol.store[page := SetPtr(vol.store[page], offset, b)];
      layers := Append(layers, j, b);
    }

    /** The root entry on the new block's path, allocated if missing. Here and
        below, the model goes no further once a search has strayed to a block in
        use; log has all the searches. */
    method RootPage(ghost t0: Tree, offset: nat) returns (r: Option<nat>, stray: bool, ghost log: seq<Search>)
      requires |t0.lv| > 1 && t0.B > 0 && Tight(t0.lv, t0.B) && Growing(State(), t0, |t0.lv|) && depth + 1 == |t0.lv|
      requires offset == Up(|t0.lv[0]|, B(), depth) < ROOTS && vol.IsLinked()
      modifies this`blockdir, this`layers, vol, vol.fs`blocks
      ensures (stray <==> !Unmisled(log)) && (old(vol.IsSteady()) ==> vol.IsSteady() && !stray)
      ensures !stray ==> vol.IsLinked() && Allocator.HintsKept(old(vol.fs.blocks), vol.fs.blocks) && |layers| == |t0.lv|
      ensures old(depth < |layers| && offset < |layers[depth]|) ==>
                r.Some? && State() == old(State()) && vol.fs.blocks == old(vol.fs.blocks) && log == []
      ensures old(depth < |layers| && offset >= |layers[depth]|) ==>
                log == [Search(old(vol.fs.blocks), goal, r)] && Answered(log[0])
      ensures r.None? ==> !stray && Growing(State(), t0, |t0.lv|) && Allocator.Exhausted(vol.fs.blocks)
      ensures r.Some? && !stray ==>
                Growing(State(), t0, depth) && offset < |layers[depth]| && r.value == layers[depth][offset]
      ensures r.Some? && !stray && old(depth < |layers| && offset >= |layers[depth]|) ==>
                RootAdded(old(State()), State(), r.value)
    {
      hide Growing, Up, Tight, Sound, Pow, Unmisled, Answered, Follow, Conserved, Linked,
           Allocator.Aligned, Allocator.HintsSound, Allocator.HintsKnown, Allocator.Exhausted,
           Allocator.NothingChosen, Allocator.Misled;
      GrowingFacts(State(), t0, |t0.lv|);
      RootOnPath(State(), offset);
      NextRoot(State(), t0);
      log := [];
      NoSearch();
      stray := false;
      var dirblock := blockdir[offset];
      if dirblock == 0 {
        ghost var t := State();
        ghost var p := vol.fs.blocks;
        r, stray := vol.NewBlock(goal);
        log := [Search(p, goal, r)];
        OneSearch(log[0]);
        if r.None? || stray { return; }
        InStore(t, r.value);
        SoundFacts(t);
        GrowRoot(t, t0, r.value);
        LinkRoot(offset, r.value, true);
        assert State() == AtRoot(t, r.value);
      } else {
        r := Some(dirblock);
      }
    }

    /** One level down the new block's path, allocating the page if missing. */
    method NextEntry(ghost t0: Tree, ghost h: nat, dirblock: nat, offset: nat)
      returns (r: Option<nat>, stray: bool, ghost log: seq<Search>)
      requires |t0.lv| > 0 && t0.B > 0 && Tight(t0.lv, t0.B) && 2 <= h < |t0.lv| && Growing(State(), t0, h)
      requires Up(|t0.lv[0]|, B(), h) < |layers[h]| && dirblock == layers[h][Up(|t0.lv[0]|, B(), h)]
      requires offset == PageSlot(Up(|t0.lv[0]|, B(), h - 1), B()) && vol.IsLinked()
      modifies this`layers, vol, vol.fs`blocks
      ensures |layers| == |t0.lv| && (stray <==> !Unmisled(log)) && (old(vol.IsSteady()) ==> vol.IsSteady() && !stray)
      ensures !stray ==> vol.IsLinked() && Allocator.HintsKept(old(vol.fs.blocks), vol.fs.blocks)
      ensures old(0 < h <= |layers| && Up(|t0.lv[0]|, B(), h - 1) < |layers[h - 1]|) ==>
                r.Some? && State() == old(State()) && vol.fs.blocks == old(vol.fs.blocks) && log == []
      ensures old(0 < h <= |layers| && Up(|t0.lv[0]|, B(), h - 1) >= |layers[h - 1]|) ==>
                log == [Search(old(vol.fs.blocks), dirblock + 1, r)] && Answered(log[0])
      ensures r.None? ==> !stray && Growing(State(), t0, h) && Allocator.Exhausted(vol.fs.blocks)
      ensures r.Some? && !stray ==>
                && Growing(State(), t0, h - 1)
                && Up(|t0.lv[0]|, B(), h - 1) < |layers[h - 1]|
                && r.value == layers[h - 1][Up(|t0.lv[0]|, B(), h - 1)]
      ensures r.Some? && !stray && old(0 < h <= |layers| && Up(|t0.lv[0]|, B(), h - 1) >= |layers[h - 1]|) ==>
                EntryAdded(old(State()), State(), h - 1, dirblock, offset, r.value)
    {
      hide Growing, Up, Tight, Sound, Pow, Conserved, Linked, Unmisled, Answered, Follow, EntryAdded, PageSlot,
           Ptr, Shaped, Allocator.Aligned, Allocator.HintsSound, Allocator.HintsKnown, Allocator.Exhausted,
           Allocator.NothingChosen, Allocator.Misled;
      GrowingFacts(State(), t0, h);
      EntryOnPath(State(), |t0.lv[0]|, h);
      NextOnPath(State(), t0, h);
      log := [];
      NoSearch();
      stray := false;
      var next := Ptr(vol.store[dirblock], offset);
      if next == 0 {
        ghost var t := State();
        ghost var p := vol.fs.blocks;
        r, stray := vol.NewBlock(dirblock + 1);
        log := [Search(p, dirblock + 1, r)];
        OneSearch(log[0]);
        if r.None? || stray { return; }
        GrowEntry(t, t0, h, dirblock, offset, r.value);
        EntryIsAdded(t, h, Up(|t0.lv[0]|, B(), h), offset, r.value);
        LinkEntry(h - 1, dirblock, offset, r.value, true);
        assert State() == AtEntry(t, h - 1, dirblock, offset, r.value);
      } else {
        r := Some(next);
        Allocator.AllKept(vol.fs.blocks);
      }
    }

    /** The append into the root array of a tree of depth 0, on any volume whose
        bitmaps are in order: it is an append of a fresh block exactly if the
        search for one is not misled. */
    method AppendFlat() returns (r: Option<nat>, stray: bool, ghost log: seq<Search>)
      requires Valid() && depth == 0 && blocks < ROOTS
      modifies this, vol, vol.fs`blocks
      ensures depth == old(depth) && vol.store == old(vol.store)
      ensures log == [Search(old(vol.fs.blocks), goal, r)] && (stray <==> !Unmisled(log))
      ensures AppendLog(old(layers), B(), goal, log)
      ensures r.None? ==> !stray && State() == old(State()) && vol.fs.blocks == old(vol.fs.blocks)
      ensures r.None? ==> Allocator.Exhausted(vol.fs.blocks)
      ensures r.Some? && !stray ==> Appended(old(State()), State(), depth, blocks, r.value)
      ensures stray ==> r.Some? && Strayed(old(State()), State(), r.value)
      ensures !stray ==> vol.IsLinked() && Allocator.HintsKept(old(vol.fs.blocks), vol.fs.blocks)
      ensures old(vol.IsSteady()) ==> vol.IsSteady() && !stray
    {
      hide WellFormed, Sound, OnlyPagesChanged, Tight, Owned, Pow, Conserved, Linked, Unmisled, Strayed, Answered,
          
           Allocator.Aligned, Allocator.HintsSound, Allocator.HintsKnown, Allocator.Exhausted,
           Allocator.NothingChosen, Allocator.Misled;
      ghost var t0 := State();
      WellFormedFacts(t0, depth, blocks);
      r, stray := vol.NewBlock(goal);
      log := [Search(old(vol.fs.blocks), goal, r)];
      OneSearch(log[0]);
      if r.None? { return; }
      if !stray { GrowFlat(t0, r.value); }
      LinkRoot(blocks, r.value, false);
      blocks := blocks + 1;
      assert !stray ==> State() == AtRoot(t0, r.value);
      if stray {
        SameConserved(t0);
        StrayedAt(State(), t0, t0, 0, r.value);
      }
    }

    /** The append down the path of a deeper tree. */
    method AppendDeep(ghost t0: Tree) returns (r: Option<nat>, stray: bool, ghost h: nat, ghost log: seq<Search>)
      requires Valid() && depth > 0 && Up(blocks, B(), depth) < ROOTS && t0 == State()
      modifies this, vol, vol.fs`blocks
      ensures depth == old(depth)
      ensures (stray <==> !Unmisled(log)) && (old(vol.IsSteady()) ==> vol.IsSteady() && !stray)
      ensures AppendLog(t0.lv, B(), goal, log)
      ensures PageSlot(old(blocks), B()) != 0 ==> log == [Search(old(vol.fs.blocks), old(NextGoal()), r)]
      ensures r.None? && !stray ==> h > 0 && Growing(State(), t0, h) && Allocator.Exhausted(vol.fs.blocks)
      ensures !stray ==> vol.IsLinked() && Allocator.HintsKept(old(vol.fs.blocks), vol.fs.blocks)
      ensures r.Some? && !stray ==> Appended(t0, State(), depth, blocks, r.value)
      ensures r.Some? && stray ==> Strayed(t0, State(), r.value)
    {
      hide WellFormed, Growing, Appended, Strayed, Up, Tight, Owned, Pow, FromDigits, Linked, PageSlot, Unmisled,
           PathLog, AppendLog, Answered, Follow, Reached, Allocator.HintsKept, Allocator.Aligned, Allocator.HintsSound,
           Allocator.Exhausted, Allocator.Misled;
      WellFormedFacts(t0, depth, blocks);
      var offsets := SplitLevels(blocks);
      var page;
      page, stray, h, log := LeafPage(t0, offsets);
      if page.None? || stray {
        NoSearch();
        return None, stray, h, log;
      }
      UpZero(blocks, B());
      ReachedLeaf(State(), t0, page.value, goal, log);
      ghost var between, more := vol.fs.blocks, log;
      r, stray, more := LeafEntry(t0, page.value, offsets[depth]);
      LogOn(t0.lv, B(), goal, log, page.value, more[0]);
      assert more == [more[0]];
      UnmisledBoth(log, more);
      assert log == [] ==> log + more == more;
      log := log + more;
      Allocator.KeptTwice(old(vol.fs.blocks), between, vol.fs.blocks);
    }

    /** The same after the searches so far. */
    method NextPage(ghost t0: Tree, ghost h: nat, dirblock: nat, offset: nat, ghost past: seq<Search>)
      returns (r: Option<nat>, stray: bool, ghost log: seq<Search>)
      requires 2 <= h < |t0.lv| && Reached(State(), t0, h, dirblock, goal, past) && Unmisled(past)
      requires offset == PageSlot(Up(|t0.lv[0]|, B(), h - 1), B()) && vol.IsLinked()
      modifies this`layers, vol, vol.fs`blocks
      ensures (stray <==> !Unmisled(log)) && (old(vol.IsSteady()) ==> vol.IsSteady() && !stray)
      ensures !stray ==> vol.IsLinked() && Allocator.HintsKept(old(vol.fs.blocks), vol.fs.blocks)
      ensures log == [] ==> past == [] && r.Some? && vol.fs.blocks == old(vol.fs.blocks)
      ensures log != [] ==> AppendLog(t0.lv, B(), goal, log) && PageSlot(|t0.lv[0]|, B()) == 0
      ensures r.None? ==> !stray && Growing(State(), t0, h) && Allocator.Exhausted(vol.fs.blocks)
      ensures r.Some? && !stray ==> Reached(State(), t0, h - 1, r.value, goal, log)
    {
      hide Growing, Up, Tight, Sound, Linked, Unmisled, Answered, Follow, AppendLog, PathLog, FirstGoal, PageSlot,
           EntryAdded, Conserved, Extends, OnlyPagesChanged, Allocator.HintsKept, Allocator.Exhausted,
           Allocator.Aligned;
      GrowingFacts(State(), t0, h);
      if past == [] && |t0.lv[h - 1]| <= Up(|t0.lv[0]|, B(), h - 1) { FirstGoalIs(t0.lv, B(), goal, h); }
      r, stray, log := NextEntry(t0, h, dirblock, offset);
      NextLog(t0.lv, B(), goal, past, dirblock, log, r);
      UnmisledBoth(past, log);
      log := past + log;
      NoSearch();
    }

    /** Down to the leaf page of the new block, allocating missing pages. */
    method LeafPage(ghost t0: Tree, offsets: seq<nat>)
      returns (page: Option<nat>, stray: bool, ghost h: nat, ghost log: seq<Search>)
      requires Valid() && depth > 0 && Up(blocks, B(), depth) < ROOTS && t0 == State()
      requires |offsets| == depth + 1 && forall d :: 0 <= d <= depth ==> offsets[d] == Digit(blocks, B(), depth, d)
      modifies this`blockdir, this`layers, vol, vol.fs`blocks
      ensures (stray <==> !Unmisled(log)) && (old(vol.IsSteady()) ==> vol.IsSteady() && !stray)
      ensures !stray ==> vol.IsLinked() && Allocator.HintsKept(old(vol.fs.blocks), vol.fs.blocks)
      ensures log == [] ==> page.Some? && vol.fs.blocks == old(vol.fs.blocks)
      ensures log != [] ==> AppendLog(t0.lv, B(), goal, log) && PageSlot(blocks, B()) == 0
      ensures page.None? && !stray ==> h > 0 && Growing(State(), t0, h) && Allocator.Exhausted(vol.fs.blocks)
      ensures page.Some? && !stray ==> h == 1 && Reached(State(), t0, 1, page.value, goal, log)
    {
      hide WellFormed, Growing, Up, Tight, Owned, Pow, Linked, PageSlot, Unmisled, Answered, AppendLog, PathLog,
           Reached, OnPath, Allocator.Aligned, Allocator.HintsSound, Allocator.HintsKnown, Allocator.Exhausted;
      GrowingStart(t0, depth, blocks);
      WellFormedFacts(t0, depth, blocks);
      page, stray, log := RootPage(t0, offsets[0]);
      RootReached(State(), t0, goal, log, page, stray, offsets[0]);
      NoSearch();
      h := if page.Some? then depth else depth + 1;
      var d := 1;
      while d < depth && page.Some? && !stray
        invariant 1 <= d <= depth == |t0.lv| - 1 && 0 < h && blocks == |t0.lv[0]|
        invariant (stray <==> !Unmisled(log)) && (old(vol.IsSteady()) ==> vol.IsSteady() && !stray)
        invariant !stray ==> vol.IsLinked() && Allocator.HintsKept(old(vol.fs.blocks), vol.fs.blocks)
        invariant log == [] ==> page.Some? && vol.fs.blocks == old(vol.fs.blocks)
        invariant log != [] ==> AppendLog(t0.lv, B(), goal, log) && PageSlot(blocks, B()) == 0
        invariant page.None? && !stray ==> Growing(State(), t0, h) && Allocator.Exhausted(vol.fs.blocks)
        invariant page.Some? && !stray ==> h == depth - d + 1 && Reached(State(), t0, h, page.value, goal, log)
      {
        ghost var between := vol.fs.blocks;
        page, stray, log := NextPage(t0, h, page.value, offsets[d], log);
        if !stray { Allocator.KeptTwice(old(vol.fs.blocks), between, vol.fs.blocks); }
        h := if page.Some? then h - 1 else h;
        d := d + 1;
      }
    }

    /** The data block at the end of the path, near the block before it. */
    method LeafEntry(ghost t0: Tree, leaf: nat, offset: nat)
      returns (r: Option<nat>, stray: bool, ghost log: seq<Search>)
      requires |t0.lv| > 1 && t0.B > 0 && WellFormed(t0, depth, blocks) && Growing(State(), t0, 1)
      requires Up(blocks, B(), 1) < |layers[1]| && leaf == layers[1][Up(blocks, B(), 1)]
      requires offset == PageSlot(blocks, B()) && vol.IsLinked()
      modifies this, vol, vol.fs`blocks
      ensures depth == old(depth) && |log| == 1 && log[0].pool == old(vol.fs.blocks) && log[0].found == r
      ensures Answered(log[0]) && (offset == 0 ==> log[0].goal == leaf + 1)
      ensures offset != 0 && old(State()) == t0 ==> blocks > 0 && log[0].goal == FirstGoal(t0.lv, B(), goal)
      ensures (stray <==> !Unmisled(log)) && (old(vol.IsSteady()) ==> vol.IsSteady() && !stray)
      ensures offset != 0 && old(State()) == t0 ==> log == [Search(old(vol.fs.blocks), old(NextGoal()), r)]
      ensures !stray ==> vol.IsLinked() && Allocator.HintsKept(old(vol.fs.blocks), vol.fs.blocks)
      ensures r.None? ==> !stray && Growing(State(), t0, 1) && Allocator.Exhausted(vol.fs.blocks)
      ensures r.Some? && !stray ==> Appended(t0, State(), depth, blocks, r.value)
      ensures r.Some? && !stray ==> EntryAdded(old(State()), State(), 0, leaf, offset, r.value)
      ensures r.Some? && stray ==> Strayed(t0, State(), r.value)
    {
      hide WellFormed, Growing, Appended, Strayed, Sound, OnlyPagesChanged, Conserved, Extends, Up, Tight, Owned,
           Pow, Linked, PageSlot, Ptr, Shaped, Slot, Unmisled, Answered, Follow, EntryAdded, Allocator.HintsKept,
           Allocator.Aligned,
           Allocator.HintsSound, Allocator.HintsKnown, Allocator.Exhausted, Allocator.Misled;
      ghost var t := State();
      GrowingFacts(t, t0, 1);
      LeafReady(t, t0, depth, blocks, leaf, offset);
      var near := if offset == 0 then leaf + 1 else Ptr(vol.store[leaf], offset - 1) + 1;
      assert offset != 0 && State() == t0 ==> near == NextGoal();
      ghost var p := vol.fs.blocks;
      r, stray := vol.NewBlock(near);
      log := [Search(p, near, r)];
      OneSearch(log[0]);
      if r.None? {
        Allocator.AllKept(vol.fs.blocks);
        return;
      }
      InStore(t, r.value);
      LinkEntry(0, leaf, offset, r.value, false);
      blocks := blocks + 1;
      if stray {
        StrayedAt(State(), t, t0, 0, r.value);
      } else {
        LeafLinked(t, t0, leaf, offset, r.value);
        assert State() == AtEntry(t, 0, leaf, offset, r.value);
      }
    }

    /** set_inode_block as expand_inode calls it: allocate a block, and the
        missing pages on its path, and append it. */
    method SetInodeBlock() returns (r: Option<nat>, stray: bool, ghost log: seq<Search>)
      requires Valid() && Up(blocks, B(), depth) < ROOTS
      modifies this, vol, vol.fs`blocks
      ensures depth == old(depth)
      ensures (stray <==> !Unmisled(log)) && (old(vol.IsSteady()) ==> vol.IsSteady() && !stray)
      ensures AppendLog(old(layers), B(), goal, log)
      ensures NeedsOne(B(), depth, old(blocks)) ==> log == [Search(old(vol.fs.blocks), old(NextGoal()), r)]
      ensures !stray ==> vol.IsLinked() && Allocator.HintsKept(old(vol.fs.blocks), vol.fs.blocks)
      ensures r.Some? && !stray ==> Appended(old(State()), State(), depth, blocks, r.value)
      ensures r.Some? && stray ==> Strayed(old(State()), State(), r.value)
      ensures r.None? && !stray ==> Allocator.Exhausted(vol.fs.blocks)
      ensures var room := |old(vol.free)| + TreeSize(old(blocks), B(), depth) >= TreeSize(old(blocks) + 1, B(), depth);
              && (r.Some? && !stray ==> room)
              && (r.None? && !stray && Allocator.HintsSound(old(vol.fs.blocks)) ==> !room)
    {
      hide WellFormed, Appended, Strayed, Growing, Up, TreeSize, Pow, Conserved, Linked, Unmisled, AppendLog,
           Allocator.Aligned,
           Allocator.HintsSound, Allocator.HintsKnown, Allocator.Exhausted, Allocator.Misled;
      ghost var t0, h := State(), 1;
      GrowingStart(t0, depth, blocks);
      WellFormedFacts(t0, depth, blocks);
      UpZero(blocks, B());
      if depth == 0 {
        r, stray, log := AppendFlat();
      } else {
        r, stray, h, log := AppendDeep(t0);
      }
      if stray { return; }
      if r.None? {
        if Allocator.HintsSound(old(vol.fs.blocks)) {
          NothingFree(vol.fs.blocks, vol.free, vol.blockCount);
          RoomShort(State(), t0, h);
        }
      } else {
        AppendedFacts(t0, State(), depth, blocks, r.value);
        RoomTaken(State(), t0);
      }
    }

    /** Copy the root entries to the front of a zeroed page and clear them. */
    method MoveRoots(roots: seq<nat>) returns (page: Block, dir: seq<nat>)
      requires |roots| == ROOTS <= B() && forall k :: 0 <= k < ROOTS ==> roots[k] < WORD
      ensures |page| == 4 * B() && Ptrs(page) == roots + Zeros(B() - ROOTS)
      ensures dir == Zeros(ROOTS)
    {
      hide Pow, Linked;
      page, dir := ZeroBytes(4 * B()), roots;
      PtrsZero(4 * B());
      var i := 0;
      while i < ROOTS
        invariant 0 <= i <= ROOTS && |page| == 4 * B() && |dir| == ROOTS
        invariant forall k :: 0 <= k < B() ==> Ptrs(page)[k] == if k < i then roots[k] else 0
        invariant forall k :: 0 <= k < ROOTS ==> dir[k] == if k < i then 0 else roots[k]
      {
        PtrsSet(page, i, dir[i]);
        page := SetPtr(page, i, dir[i]);
        dir := dir[i := 0];
        i := i + 1;
      }
      assert dir == Zeros(ROOTS);
    }

    /** Move the root entries into a new directory page one level up. */
    method IncreaseDepth() returns (ok: bool, stray: bool, ghost log: seq<Search>)
      requires Valid() && |layers[|layers| - 1]| >= 1
      modifies this, vol, vol.fs`blocks
      ensures (stray <==> !Unmisled(log)) && (old(vol.IsSteady()) ==> vol.IsSteady() && !stray)
      ensures |log| == 1 && old(|blockdir| > 0) && log[0].pool == old(vol.fs.blocks) && Answered(log[0])
      ensures log[0].goal == old(blockdir[0]) - 1
      ensures ok ==> log[0].found.Some? && layers == old(layers) + [[log[0].found.value]]
      ensures !stray ==> vol.IsLinked() && Allocator.HintsKept(old(vol.fs.blocks), vol.fs.blocks)
      ensures !ok && !stray ==> State() == old(State()) && Allocator.Exhausted(vol.fs.blocks) && depth == old(depth)
      ensures blocks == old(blocks) && (ok ==> !stray)
      ensures ok ==> depth == old(depth) + 1 && Valid() && layers[0] == old(layers[0])
      ensures ok ==> |vol.free| + 1 == |old(vol.free)|
      ensures ok ==> vol.free <= old(vol.free) && Extends(layers, old(layers))
      ensures ok ==> Conserved(State(), old(State())) && OnlyPagesChanged(old(vol.store), vol.store, layers)
      ensures ok ==> RootsMoved(old(vol.store), old(blockdir), vol.store, blockdir, B())
    {
      hide Rep, Tight, Owned, OnlyPagesChanged, Pow, Conserved, Linked, Unmisled, Answered, Allocator.Aligned,
           Allocator.HintsSound, Allocator.HintsKnown, Allocator.Exhausted, Allocator.NothingChosen, Allocator.Misled;
      ghost var t0 := State();
      WellFormedFacts(t0, depth, blocks);
      RootsAreBlocks(t0);
      var nb;
      nb, stray := vol.NewBlock(blockdir[0] - 1);
      log := [Search(old(vol.fs.blocks), blockdir[0] - 1, nb)];
      OneSearch(log[0]);
      if nb.None? || stray {
        return false, stray, log;
      }
      var page, dir := MoveRoots(blockdir);
      SoundDeepened(t0, depth, blocks, nb.value, page);
      vol.store := vol.store[nb.value := page];
      blockdir := dir[0 := nb.value];
      depth := depth + 1;
      layers := layers + [[nb.value]];
      assert State() == Deepened(t0, nb.value, page);
      return true, false, log;
    }

    /** expand_inode: the block sequence grows by exactly one fresh block, every
        earlier index keeps its block, and the tree deepens only when full. This
        holds exactly if no search for a block is misled, and none is on a steady
        volume. With sound hints it fails exactly if the free blocks do not cover
        the larger tree, with others at least then. */
    method ExpandInode() returns (r: Option<nat>, stray: bool, ghost log: seq<Search>)
      requires Valid()
      modifies this, vol, vol.fs`blocks
      ensures (stray <==> !Unmisled(log)) && (old(vol.IsSteady()) ==> vol.IsSteady() && !stray)
      ensures ExpandLog(old(State()), old(depth), goal, log)
      ensures NeedsOne(B(), old(depth), old(blocks)) ==> log == [Search(old(vol.fs.blocks), old(NextGoal()), r)]
      ensures !stray ==> vol.IsLinked() && Allocator.HintsKept(old(vol.fs.blocks), vol.fs.blocks)
      ensures r.Some? ==> (Appended(old(State()), State(), depth, blocks, r.value) <==> !stray)
      ensures r.Some? ==> depth == NextDepth(B(), old(blocks), old(depth))
      ensures r.None? && !stray ==> Allocator.Exhausted(vol.fs.blocks)
      ensures var room := |old(vol.free)| + TreeSize(old(blocks), B(), old(depth)) >=
                          TreeSize(old(blocks) + 1, B(), NextDepth(B(), old(blocks), old(depth)));
              && (r.Some? && !stray ==> room)
              && (r.None? && !stray && Allocator.HintsSound(old(vol.fs.blocks)) ==> !room)
    {
      hide WellFormed, Appended, Strayed, Up, TreeSize, Pow, Owned, OnlyPagesChanged, Conserved, Linked, Unmisled,
           AppendLog, Answered,
           Allocator.Aligned, Allocator.HintsSound, Allocator.HintsKnown, Allocator.Exhausted, Allocator.Misled;
      ghost var t0 := State();
      WellFormedFacts(t0, depth, blocks);
      Capacity(t0, depth, blocks);
      PowPow(2, vol.logPtrs, depth);
      FullNeedsMore(B(), depth);
      log := [];
      NoSearch();
      var maxblocks := ROOTS * Pow(2, depth * vol.logPtrs);
      if blocks == maxblocks {
        var ok;
        ok, stray, log := IncreaseDepth();
        if stray {
          return None, true, log;
        }
        if !ok {
          if Allocator.HintsSound(old(vol.fs.blocks)) {
            NothingFree(vol.fs.blocks, vol.free, vol.blockCount);
            TreeSizeGrows(blocks, B(), depth);
          }
          return None, false, log;
        }
        DeeperCount(State(), t0, depth - 1, blocks);
      }
      ghost var t1, more := State(), log;
      NothingChanged(t0);
      r, stray, more := SetInodeBlock();
      UnmisledBoth(log, more);
      assert log == [] ==> log + more == more;
      log := log + more;
      if r.Some? {
        if stray {
          StrayedFrom(t0, t1, State(), r.value);
          StrayedIsNot(t0, State(), depth, blocks, r.value);
        } else {
          AppendedAfter(t0, t1, State(), depth, blocks, r.value);
        }
      }
    }

    /** The pages on the path to a block; entry d is the page at depth d. */
    method Path(iblock: nat) returns (pages: seq<nat>, offsets: seq<nat>)
      requires Sound(State()) && |layers| == depth + 1 && iblock < |layers[0]|
      ensures |pages| == depth + 1 && |offsets| == depth + 1
      ensures forall d :: 0 <= d <= depth ==> offsets[d] == Digit(iblock, B(), depth, d)
      ensures forall h :: 0 < h <= depth ==>
                Up(iblock, B(), h) < |layers[h]| && pages[depth - h + 1] == layers[h][Up(iblock, B(), h)]
    {
      hide Sound, Up, Pow, FromDigits, Linked, Allocator.Aligned, Allocator.HintsSound, Allocator.HintsKnown;
      SoundFacts(State());
      offsets := SplitLevels(iblock);
      UpInLayer(layers, B(), iblock, depth);
      RootOnPath(State(), offsets[0]);
      var blk := blockdir[offsets[0]];
      pages := [0];
      var d := 1;
      while d <= depth
        invariant 1 <= d <= depth + 1 && |pages| == d
        invariant Up(iblock, B(), depth - d + 1) < |layers[depth - d + 1]|
        invariant blk == layers[depth - d + 1][Up(iblock, B(), depth - d + 1)]
        invariant forall h :: depth - d + 1 < h <= depth ==>
                    Up(iblock, B(), h) < |layers[h]| && pages[depth - h + 1] == layers[h][Up(iblock, B(), h)]
      {
        ghost var h := depth - d + 1;
        EntryOnPath(State(), iblock, h);
        UpInLayer(layers, B(), iblock, h - 1);
        pages := pages + [blk];
        blk := Ptr(vol.store[blk], offsets[d]);
        d := d + 1;
      }
    }

    /** remove_blocks on the last leaf page q: free the data blocks from n on
        and clear their entries. */
    method RemoveLeafBlocks(ghost t0: Tree, ghost m: nat, ghost n: nat, ghost q: nat, leaf: nat, from: nat, count: nat)
      requires vol.IsLinked()
      requires Trimmed(State(), t0, m) && |layers| > 1 && n < m && q == LeafOf(m, B()) && LeafStart(m, B()) <= n
      requires q < |layers[1]| && leaf == layers[1][q] && from == n - LeafStart(m, B()) && count == m - n
      modifies this`layers, vol, vol.fs`blocks
      ensures vol.IsLinked() && Allocator.HealthKept(old(vol.fs.blocks), vol.fs.blocks)
      ensures Trimming(State(), t0, m, n, 1) && layers == Cut(old(layers), 0, n)
    {
      hide Trimming, Sound, Pow, ClearPtrs, Ptrs, Owned, Linked, Allocator.Aligned, Allocator.HintsSound,
           Allocator.HintsKnown;
      ghost var t := State();
      TrimmingFacts(t, t0, m, m, 0);
      LeafBlocks(t, t0, m, n, q);
      TailInUse(t, 0, n);
      TrimData(t, t0, m, n, q);
      var list := Ptrs(vol.store[leaf])[from..from + count];
      assert list == t.lv[0][n..];
      vol.FreeBlocks(list);
      vol.store := vol.store[leaf := ClearPtrs(vol.store[leaf], from, count)];
      layers := Cut(layers, 0, n);
      assert State() == CutFromPage(t, 0, n, leaf, from);
    }

    /** The upward loop after a leaf page was freed: clear the entry above, and
        free the page above too if that entry was its first. */
    method ClimbFreeing(ghost t0: Tree, ghost m: nat, ghost n: nat, pages: seq<nat>, offsets: seq<nat>)
      requires vol.IsLinked()
      requires Sound(t0) && m > 0 && depth > 0 && |layers| == depth + 1 && Unlinking(State(), t0, m, n, 1)
      requires |pages| == depth + 1 && |offsets| == depth + 1
      requires forall d :: 0 <= d < depth ==> offsets[d] == Digit(m - 1, B(), depth, d)
      requires forall h :: 0 < h <= depth ==>
                 Up(m - 1, B(), h) < |layers[h]| && pages[depth - h + 1] == layers[h][Up(m - 1, B(), h)]
      requires offsets[depth] == 0
      modifies this`layers, this`blockdir, vol, vol.fs`blocks
      ensures vol.IsLinked() && Allocator.HealthKept(old(vol.fs.blocks), vol.fs.blocks)
      ensures Trimmed(State(), t0, n) && |layers| == depth + 1
    {
      hide Sound, Trimming, Unlinking, Up, Over, Pow, SetPtr, Linked, Allocator.Aligned, Allocator.HintsSound,
           Allocator.HintsKnown;
      var d := depth - 1;
      var done := false;
      while d > 0 && !done
        invariant 0 <= d < depth && |layers| == depth + 1 && vol.IsLinked()
        invariant Allocator.HealthKept(old(vol.fs.blocks), vol.fs.blocks)
        invariant done ==> d > 0 && Trimmed(State(), t0, n)
        invariant !done ==> Unlinking(State(), t0, m, n, depth - d)
        invariant !done && 0 < d < depth - 1 ==> offsets[d + 1] == 0
        invariant !done ==> forall h :: depth - d <= h <= depth ==>
                    Up(m - 1, B(), h) < |layers[h]| && pages[depth - h + 1] == layers[h][Up(m - 1, B(), h)]
        invariant !done && d == 0 ==> offsets[1] == 0
        decreases d, !done
      {
        ghost var h := depth - d;
        ClimbPage(State(), t0, m, n, h);
        UnlinkingOver(State(), t0, m, n, h);
        vol.store := vol.store[pages[d] := SetPtr(vol.store[pages[d]], offsets[d], 0)];
        layers := Cut(layers, h, Up(m - 1, B(), h));
        ClimbOn(State(), t0, m, n, h + 1);
        if offsets[d] == 0 {
          vol.FreeBlocks([pages[d]]);
          assert Elements([pages[d]]) == {pages[d]};
          d := d - 1;
        } else {
          done := true;
        }
      }
      if d == 0 && offsets[1] == 0 {
        ClimbRoot(State(), t0, m, n);
        blockdir := blockdir[offsets[0] := 0];
        layers := Cut(layers, depth, Up(m - 1, B(), depth));
      }
    }

    /** The last leaf page loses all its blocks: free them, it, and the pages
        above that become empty. */
    method DropLeaf(ghost t0: Tree, ghost m: nat, ghost n: nat, pages: seq<nat>, offsets: seq<nat>)
      requires vol.IsLinked()
      requires Sound(t0) && m > 0 && depth > 0 && |layers| == depth + 1 && Trimmed(State(), t0, m)
      requires |pages| == depth + 1 && |offsets| == depth + 1 && n == LeafStart(m, B())
      requires forall d :: 0 <= d < depth ==> offsets[d] == Digit(m - 1, B(), depth, d)
      requires forall h :: 0 < h <= depth ==>
                 Up(m - 1, B(), h) < |layers[h]| && pages[depth - h + 1] == layers[h][Up(m - 1, B(), h)]
      requires m == n + offsets[depth] + 1
      modifies this`layers, this`blockdir, vol, vol.fs`blocks
      ensures vol.IsLinked() && Allocator.HealthKept(old(vol.fs.blocks), vol.fs.blocks)
      ensures Trimmed(State(), t0, n) && |layers| == depth + 1
    {
      hide Sound, Trimming, Unlinking, Up, Over, Pow, Linked, Allocator.Aligned, Allocator.HintsSound,
           Allocator.HintsKnown;
      LastLeaf(m, B());
      var leaf := pages[depth];
      RemoveLeafBlocks(t0, m, n, LeafOf(m, B()), leaf, 0, offsets[depth] + 1);
      UnlinkLeaf(State(), t0, m, n);
      vol.FreeBlocks([leaf]);
      assert Elements([leaf]) == {leaf};
      ClimbFreeing(t0, m, n, pages, offsets[depth := 0]);
    }

    /** One iteration of truncate_inode: remove the blocks of the last leaf page,
        or as many of them as are still to go. */
    method TrimLastLeaf(ghost t0: Tree, iblock: nat, blocksleft: nat) returns (count: nat)
      requires vol.IsLinked()
      requires Sound(t0) && depth > 0 && |layers| == depth + 1 && Trimmed(State(), t0, iblock + 1)
      requires 0 < blocksleft <= iblock + 1
      modifies this`layers, this`blockdir, vol, vol.fs`blocks
      ensures vol.IsLinked() && Allocator.HealthKept(old(vol.fs.blocks), vol.fs.blocks)
      ensures 0 < count <= blocksleft
      ensures Trimmed(State(), t0, iblock + 1 - count) && |layers| == depth + 1
    {
      hide Sound, Trimming, Unlinking, Up, Over, Pow, LeafOf, LeafStart, Digit, Linked, Allocator.Aligned,
           Allocator.HintsSound, Allocator.HintsKnown;
      TrimmingFacts(State(), t0, iblock + 1, iblock + 1, 0);
      ghost var m := iblock + 1;
      LeafSize(State(), t0, m);
      LeafDigit(m, B(), depth);
      var pages, offsets := Path(iblock);
      var leaf := pages[depth];
      if blocksleft > offsets[depth] {
        count := offsets[depth] + 1;
        DropLeaf(t0, m, m - count, pages, offsets);
      } else {
        count := blocksleft;
        RemoveLeafBlocks(t0, m, m - count, LeafOf(m, B()), leaf, offsets[depth] + 1 - blocksleft, blocksleft);
        SameLeaf(m, m - count, B());
        TrimmingAll(State(), t0, m, m - count, 1);
      }
    }

    /** truncate_inode: keep the first `target` blocks, and give back the others
        together with every page that became empty, each once. */
    method TruncateInode(target: nat) returns (rc: int)
      requires Valid()
      modifies this, vol, vol.fs`blocks
      ensures vol.IsLinked() && Allocator.HealthKept(old(vol.fs.blocks), vol.fs.blocks)
      ensures rc == if target > old(blocks) then -1 else 0
      ensures rc != 0 || target == old(blocks) ==>
                State() == old(State()) && depth == old(depth) && blocks == old(blocks)
      ensures rc == 0 && target < old(blocks) ==> Truncated(old(State()), State(), old(depth), depth, blocks, target)
    {
      hide Sound, Trimming, Owned, Over, Pow, OnlyPagesChanged, Linked, Allocator.Aligned, Allocator.HintsSound,
           Allocator.HintsKnown;
      ghost var t0 := State();
      if target > blocks {
        return -1;
      }
      if target == blocks || blocks == 0 {
        return 0;
      }
      TrimmedStart(t0, depth, blocks);
      WellFormedFacts(t0, depth, blocks);
      if depth == 0 {
        TruncateFlat(target);
        return 0;
      }
      var iblock: int, blocksleft := blocks - 1, blocks - target;
      while blocksleft > 0
        invariant blocksleft >= 0 && iblock + 1 == target + blocksleft && depth == old(depth)
        invariant Trimmed(State(), t0, iblock + 1) && |layers| == depth + 1 == |t0.lv| && vol.IsLinked()
        invariant Allocator.HealthKept(old(vol.fs.blocks), vol.fs.blocks)
      {
        var count := TrimLastLeaf(t0, iblock, blocksleft);
        iblock := iblock - count;
        blocksleft := blocksleft - count;
      }
      TruncatedWhole(State(), t0, old(depth), old(blocks), target);
      blocks := target;
      if target == 0 {
        depth := 0;
        layers := [[]];
      }
      return 0;
    }

    /** Depth 0: the blocks are in the root array itself. */
    method TruncateFlat(target: nat)
      requires Valid() && depth == 0 && target < blocks
      modifies this, vol, vol.fs`blocks
      ensures vol.IsLinked() && Allocator.HealthKept(old(vol.fs.blocks), vol.fs.blocks)
      ensures Truncated(old(State()), State(), 0, depth, blocks, target)
    {
      hide Rep, Trimming, Owned, Pow, OnlyPagesChanged, Linked, Allocator.Aligned, Allocator.HintsSound,
           Allocator.HintsKnown;
      ghost var t0 := State();
      WellFormedFacts(t0, depth, blocks);
      RootBlocks(t0);
      TailInUse(t0, 0, target);
      CutFlat(t0, blocks, target);
      vol.FreeBlocks(blockdir[target..blocks]);
      blockdir := blockdir[..target] + Zeros(blocks - target) + blockdir[blocks..];
      blocks := target;
      layers := Cut(layers, 0, target);
      assert State() == CutFromRoot(t0, target);
    }
  }

  lemma SameAligned(p: Allocator.Pool, p': Allocator.Pool)
    requires Allocator.SameShape(p, p')
    ensures p'.total == p.total && (Allocator.Aligned(p) ==> Allocator.Aligned(p'))
  {}

  /** x >> s */
  function Shifted(x: nat, s: nat): nat {
    PowPositive(2, s);
    x / Pow(2, s)
  }

  /** x & ((1 << s) - 1) */
  function Masked(x: nat, s: nat): nat {
    PowPositive(2, s);
    x % Pow(2, s)
  }

  /** Masking with (1 << (h+1)*log) - 1 and shifting by h*log yields digit h. */
  lemma ShiftDigit(x: nat, log: nat, h: nat)
    ensures Pow(2, log) > 0 && (h + 1) * log - log == h * log
    ensures Shifted(x, h * log) == Up(x, Pow(2, log), h)
    ensures Shifted(Masked(x, (h + 1) * log), h * log) == PageSlot(Up(x, Pow(2, log), h), Pow(2, log))
    ensures Masked(Masked(x, (h + 1) * log), h * log) == Masked(x, h * log)
  {
    var B := Pow(2, log);
    PowPositive(2, log);
    PowPow(2, log, h);
    PowPow(2, log, h + 1);
    UpIsShift(x, B, h);
    DivDiv(x, Pow(B, h), B);
    assert Pow(B, h + 1) == Pow(B, h) * B;
  }
}
