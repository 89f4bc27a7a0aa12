/** The block directory of an inode as a value.

    A tree of depth D over pages of B pointers is described by its layers:
    layer 0 lists the data blocks of the file in order and layer j lists, left
    to right, the directory pages of height j. Page i of layer j holds entries
    i*B .. (i+1)*B-1 of layer j-1, zero-padded, and the root array in the inode
    holds layer D, zero-padded to ROOTS. */
module BlockTree {
  import opened Arith
  import opened Basics

  const ROOTS: nat := 16

  type Layers = seq<seq<nat>>

  function Slot(layer: seq<nat>, i: nat): nat {
    if i < |layer| then layer[i] else 0
  }

  /** What page i over this layer holds. */
  function Image(layer: seq<nat>, i: nat, B: nat): (page: seq<nat>)
    ensures |page| == B
  {
    seq<nat>(B, c requires 0 <= c < B => Slot(layer, i * B + c))
  }

  function RootImage(layer: seq<nat>): (roots: seq<nat>)
    ensures |roots| == ROOTS
    ensures forall c :: 0 <= c < ROOTS ==> roots[c] == Slot(layer, c)
  {
    seq<nat>(ROOTS, c requires 0 <= c < ROOTS => Slot(layer, c))
  }

  function Zeros(n: nat): (s: seq<nat>)
    ensures |s| == n
    ensures forall c :: 0 <= c < n ==> s[c] == 0
  {
    seq<nat>(n, c => 0)
  }

  ghost predicate Owns(lv: Layers, b: nat) {
    exists j, i :: 0 <= j < |lv| && 0 <= i < |lv[j]| && lv[j][i] == b
  }

  /** Every block the tree uses: data blocks and directory pages. */
  ghost function Owned(lv: Layers): set<nat> {
    set j, i | 0 <= j < |lv| && 0 <= i < |lv[j]| :: lv[j][i]
  }

  /** No block is used twice, and none is block 0. */
  ghost predicate Distinct(lv: Layers) {
    && (forall j, i :: 0 <= j < |lv| && 0 <= i < |lv[j]| ==> lv[j][i] != 0)
    && (forall j, i, j', i' ::
          0 <= j < |lv| && 0 <= i < |lv[j]| && 0 <= j' < |lv| && 0 <= i' < |lv[j']| && lv[j][i] == lv[j'][i']
          ==> j == j' && i == i')
  }

  ghost predicate Shaped(lv: Layers, B: nat) {
    && |lv| >= 1
    && |lv[|lv| - 1]| <= ROOTS
    && forall j :: 0 < j < |lv| ==> |lv[j - 1]| <= |lv[j]| * B
  }

  ghost predicate PagesMatch(pages: map<nat, seq<nat>>, lv: Layers, B: nat) {
    forall j, i :: 1 <= j < |lv| && 0 <= i < |lv[j]| ==>
      lv[j][i] in pages && pages[lv[j][i]] == Image(lv[j - 1], i, B)
  }

  /** The pages and the root array hold exactly the given layers. Pages may be
      empty: this also holds half-way through an operation. */
  ghost predicate Rep(pages: map<nat, seq<nat>>, roots: seq<nat>, lv: Layers, B: nat) {
    && Shaped(lv, B)
    && Distinct(lv)
    && PagesMatch(pages, lv, B)
    && roots == RootImage(lv[|lv| - 1])
  }

  /** No empty page: what holds between operations. */
  ghost predicate Tight(lv: Layers, B: nat)
    requires B > 0
  {
    forall j :: 0 < j < |lv| ==> |lv[j]| == CeilDiv(|lv[j - 1]|, B)
  }

  // ---------------------------------------------------------------- counting

  /** In a tight tree over n data blocks, layer j has ceil(n / B^j) nodes. */
  lemma {:induction false} LayerSize(lv: Layers, B: nat, j: nat)
    requires B > 0 && |lv| >= 1 && Tight(lv, B) && j < |lv|
    ensures Pow(B, j) > 0
    ensures |lv[j]| == CeilDiv(|lv[0]|, Pow(B, j))
  {
    PowPositive(B, j);
    if j == 0 {
      CeilDivChar(|lv[0]|, 1, |lv[0]|);
    } else {
      LayerSize(lv, B, j - 1);
      CeilPow(|lv[0]|, B, j - 1);
      assert |lv[j]| == CeilDiv(|lv[j - 1]|, B);
    }
  }

  /** n + sum over j = 1..depth of ceil(n / B^j). */
  function TreeSize(n: nat, B: nat, depth: nat): nat
    requires B > 0
  {
    if depth == 0 then n
    else
      PowPositive(B, depth);
      TreeSize(n, B, depth - 1) + CeilDiv(n, Pow(B, depth))
  }

  lemma OwnedOfPrefix(lv: Layers)
    requires |lv| >= 1
    ensures Owned(lv) == Owned(lv[..|lv| - 1]) + Elements(lv[|lv| - 1])
  {
    var low, top := lv[..|lv| - 1], lv[|lv| - 1];
    forall b | b in Owned(lv) ensures b in Owned(low) + Elements(top) {
      var j, i :| 0 <= j < |lv| && 0 <= i < |lv[j]| && lv[j][i] == b;
      if j < |low| { assert low[j][i] == b; }
    }
    forall b | b in Owned(low) ensures b in Owned(lv) {
      var j, i :| 0 <= j < |low| && 0 <= i < |low[j]| && low[j][i] == b;
      assert lv[j][i] == b;
    }
    forall b | b in top ensures b in Owned(lv) {
      var i :| 0 <= i < |top| && top[i] == b;
      assert lv[|lv| - 1][i] == b;
    }
  }

  lemma {:induction false} SetOfDistinct(s: seq<nat>)
    requires forall i, i' :: 0 <= i < i' < |s| ==> s[i] != s[i']
    ensures |Elements(s)| == |s|
  {
    if s == [] {
      assert Elements(s) == {};
    } else {
      var t := s[..|s| - 1];
      SetOfDistinct(t);
      assert s == t + [s[|s| - 1]];
      assert Elements(s) == Elements(t) + {s[|s| - 1]};
      assert s[|s| - 1] !in t;
    }
  }

  lemma DistinctPrefix(lv: Layers)
    requires |lv| >= 1 && Distinct(lv)
    ensures Distinct(lv[..|lv| - 1])
    ensures Owned(lv[..|lv| - 1]) !! Elements(lv[|lv| - 1])
    ensures |Elements(lv[|lv| - 1])| == |lv[|lv| - 1]|
  {
    var low, top := lv[..|lv| - 1], lv[|lv| - 1];
    assert forall j :: 0 <= j < |low| ==> low[j] == lv[j];
    forall b | b in Owned(low) ensures b !in top {
      var j, i :| 0 <= j < |low| && 0 <= i < |low[j]| && low[j][i] == b;
      assert forall i' :: 0 <= i' < |top| ==> top[i'] != low[j][i];
    }
    SetOfDistinct(top);
  }

  /** A tree whose layers are no longer than those of n data blocks owns at
      most TreeSize(n) blocks, short by what its data layer is short. */
  lemma {:induction false} OwnedBound(lv: Layers, B: nat, n: nat)
    requires B > 0 && |lv| >= 1 && Distinct(lv) && |lv[0]| <= n
    requires forall j :: 0 < j < |lv| ==> Pow(B, j) > 0 && |lv[j]| <= CeilDiv(n, Pow(B, j))
    ensures |Owned(lv)| + n <= TreeSize(n, B, |lv| - 1) + |lv[0]|
    decreases |lv|
  {
    var low := lv[..|lv| - 1];
    OwnedOfPrefix(lv);
    DistinctPrefix(lv);
    if |lv| == 1 {
      assert Owned(low) == {};
    } else {
      assert low[0] == lv[0];
      OwnedBound(low, B, n);
    }
  }

  /** Conservation: a tight tree of n blocks and depth D owns exactly
      n + sum over j = 1..D of ceil(n / B^j) blocks. */
  lemma {:induction false} OwnedCount(lv: Layers, B: nat)
    requires B > 0 && |lv| >= 1 && Distinct(lv) && Tight(lv, B)
    ensures |Owned(lv)| == TreeSize(|lv[0]|, B, |lv| - 1)
    decreases |lv|
  {
    var low := lv[..|lv| - 1];
    OwnedOfPrefix(lv);
    DistinctPrefix(lv);
    if |lv| == 1 {
      assert Owned(low) == {};
    } else {
      assert Tight(low, B) by {
        assert forall j :: 0 <= j < |low| ==> low[j] == lv[j];
      }
      OwnedCount(low, B);
      LayerSize(lv, B, |lv| - 1);
    }
  }

  // --------------------------------------------------------- index digits

  /** The node of layer h above data block x. */
  function Up(x: nat, B: nat, h: nat): nat
    requires B > 0
  {
    if h == 0 then x else Up(x, B, h - 1) / B
  }

  /** Where node n of a layer goes in its page. */
  function PageSlot(n: nat, B: nat): (r: nat)
    requires B > 0
    ensures r < B
  {
    n % B
  }

  /** Step d of the path to block x in a tree of the given depth: the root
      index for d = 0, an index within a page below. */
  function Digit(x: nat, B: nat, depth: nat, d: nat): nat
    requires B > 0 && d <= depth
  {
    if d == 0 then Up(x, B, depth) else PageSlot(Up(x, B, depth - d), B)
  }

  /** The index that a path spells in base B. */
  function FromDigits(path: seq<nat>, B: nat): nat {
    if path == [] then 0 else FromDigits(path[..|path| - 1], B) * B + path[|path| - 1]
  }

  /** A path spells the index it was split from, so distinct indices have
      distinct paths. */
  lemma {:induction false} DigitsSpell(path: seq<nat>, x: nat, B: nat, depth: nat)
    requires B > 0 && 0 < |path| <= depth + 1
    requires forall d :: 0 <= d < |path| ==> path[d] == Digit(x, B, depth, d)
    ensures FromDigits(path, B) == Up(x, B, depth + 1 - |path|)
  {
    hide Up;
    var d := |path| - 1;
    var rest := path[..d];
    assert path[d] == Digit(x, B, depth, d);
    if d == 0 {
      assert FromDigits(rest, B) == 0;
    } else {
      DigitsSpell(rest, x, B, depth);
      UpNext(x, B, depth - d);
      assert FromDigits(path, B) == FromDigits(rest, B) * B + path[d];
    }
  }

  lemma UpNext(x: nat, B: nat, h: nat)
    requires B > 0
    ensures Up(x, B, h) == Up(x, B, h + 1) * B + Up(x, B, h) % B
  {
    DivFacts(Up(x, B, h), B);
  }

  lemma UpZero(x: nat, B: nat)
    requires B > 0
    ensures Up(x, B, 0) == x
  {}

  lemma {:induction false} UpIsShift(x: nat, B: nat, h: nat)
    requires B > 0
    ensures Pow(B, h) > 0
    ensures Up(x, B, h) == x / Pow(B, h)
  {
    PowPositive(B, h);
    if h > 0 {
      UpIsShift(x, B, h - 1);
      DivDiv(x, Pow(B, h - 1), B);
      assert Pow(B, h) == Pow(B, h - 1) * B;
    }
  }

  /** Every data block has its ancestor in each layer. */
  lemma {:induction false} UpInLayer(lv: Layers, B: nat, x: nat, h: nat)
    requires B > 0 && Shaped(lv, B) && x < |lv[0]| && h < |lv|
    ensures Up(x, B, h) < |lv[h]|
  {
    if h > 0 {
      UpInLayer(lv, B, x, h - 1);
      DivBelow(Up(x, B, h - 1), |lv[h]|, B);
    }
  }

  lemma DivBelow(x: nat, n: nat, B: nat)
    requires B > 0 && x < n * B
    ensures x / B < n
  {
    if x / B >= n { MulLess(n - 1, x / B, B); }
  }

  /** Where the next block goes: each layer of a tight tree ends at, or just
      after, the ancestor of index |lv[0]|. */
  lemma {:induction false} NextInLayer(lv: Layers, B: nat, h: nat)
    requires B > 0 && |lv| >= 1 && Tight(lv, B) && h < |lv|
    ensures Up(|lv[0]|, B, h) <= |lv[h]| <= Up(|lv[0]|, B, h) + 1
  {
    if h > 0 {
      NextInLayer(lv, B, h - 1);
      CeilDivStep(Up(|lv[0]|, B, h - 1), B);
      assert |lv[h]| == CeilDiv(|lv[h - 1]|, B);
    }
  }

  /** The size of layer j over n data blocks, by repeated ceiling. */
  function Over(n: nat, B: nat, j: nat): nat
    requires B > 0
  {
    if j == 0 then n else CeilDiv(Over(n, B, j - 1), B)
  }

  lemma {:induction false} TightIsOver(lv: Layers, B: nat, j: nat)
    requires B > 0 && |lv| >= 1 && Tight(lv, B) && j < |lv|
    ensures |lv[j]| == Over(|lv[0]|, B, j)
  {
    if j > 0 { TightIsOver(lv, B, j - 1); }
  }

  /** The last node of layer j is the ancestor of the last data block. */
  lemma {:induction false} OverIsUp(n: nat, B: nat, j: nat)
    requires B > 0 && n > 0
    ensures Over(n, B, j) == Up(n - 1, B, j) + 1
  {
    if j > 0 {
      OverIsUp(n, B, j - 1);
      CeilDivStep(Up(n - 1, B, j - 1), B);
    }
  }

  /** The leaf page that holds the last of m blocks. */
  lemma LastLeaf(m: nat, B: nat)
    requires B > 0 && m > 0
    ensures (m - 1) / B * B < m <= (m - 1) / B * B + B
    ensures Over(m, B, 0) == m && Over(m, B, 1) == (m - 1) / B + 1
    ensures Up(m - 1, B, 1) == (m - 1) / B
  {
    assert m - 1 == (m - 1) / B * B + (m - 1) % B;
    assert Up(m - 1, B, 0) == m - 1;
    OverIsUp(m, B, 1);
  }

  lemma {:induction false} OverZero(B: nat, j: nat)
    requires B > 0
    ensures Over(0, B, j) == 0
  {
    if j > 0 {
      OverZero(B, j - 1);
      CeilDivChar(0, B, 0);
    }
  }

  lemma {:induction false} OverAgree(m: nat, n: nat, B: nat, h: nat, j: nat)
    requires B > 0 && h <= j && Over(m, B, h) == Over(n, B, h)
    ensures Over(m, B, j) == Over(n, B, j)
  {
    if h < j { OverAgree(m, n, B, h, j - 1); }
  }

  /** One step down the path: page Up(x, h) of layer h holds, at the digit for
      this level, node Up(x, h - 1) of the layer below. */
  lemma PathStep(layer: seq<nat>, x: nat, B: nat, h: nat)
    requires B > 0 && h > 0
    ensures Image(layer, Up(x, B, h), B)[Up(x, B, h - 1) % B] == Slot(layer, Up(x, B, h - 1))
  {
    var y := Up(x, B, h - 1);
    assert y == (y / B) * B + y % B;
    ImageAt(layer, y / B, B, y % B);
  }

  // ------------------------------------------------- one pointer at a time

  function Append(lv: Layers, j: nat, b: nat): Layers
    requires j < |lv|
  {
    lv[j := lv[j] + [b]]
  }

  function Cut(lv: Layers, j: nat, n: nat): Layers
    requires j < |lv| && n <= |lv[j]|
  {
    lv[j := lv[j][..n]]
  }

  lemma ImageAt(layer: seq<nat>, i: nat, B: nat, c: nat)
    requires c < B
    ensures Image(layer, i, B)[c] == Slot(layer, i * B + c)
  {
    var f: int --> nat := c requires 0 <= c < B => Slot(layer, i * B + c);
    assert seq<nat>(B, f)[c] == f(c);
  }

  lemma ImageAppend(layer: seq<nat>, b: nat, i: nat, B: nat)
    requires B > 0
    ensures Image(layer + [b], i, B) ==
            if i == |layer| / B then Image(layer, i, B)[|layer| % B := b] else Image(layer, i, B)
  {
    var n := |layer|;
    var was, now := Image(layer, i, B), Image(layer + [b], i, B);
    forall c | 0 <= c < B
      ensures now[c] == if i == n / B && c == n % B then b else was[c]
    {
      ImageAt(layer, i, B, c);
      ImageAt(layer + [b], i, B, c);
      if i * B + c == n { DivModUnique(n, i, c, B); }
    }
    if i != n / B { assert now == was; }
  }

  lemma ImageEmpty(layer: seq<nat>, i: nat, B: nat)
    requires |layer| <= i * B
    ensures Image(layer, i, B) == Zeros(B)
  {
    forall c | 0 <= c < B ensures Image(layer, i, B)[c] == 0 {
      ImageAt(layer, i, B, c);
    }
  }

  /** Cutting a layer back within page q zeroes the tail of that page only. */
  lemma ImageCut(layer: seq<nat>, n: nat, q: nat, i: nat, B: nat)
    requires B > 0 && q * B <= n <= |layer| <= q * B + B
    ensures Image(layer[..n], i, B) ==
            if i == q then Image(layer, q, B)[..n - q * B] + Zeros(|layer| - n) + Image(layer, q, B)[|layer| - q * B..]
            else Image(layer, i, B)
  {
    var was, now := Image(layer, i, B), Image(layer[..n], i, B);
    if i < q { MulLess(i, q, B); }
    if q < i { MulLess(q, i, B); }
    if i == q {
      var cut := was[..n - q * B] + Zeros(|layer| - n) + was[|layer| - q * B..];
      forall c | 0 <= c < B ensures now[c] == cut[c] {
        ImageAt(layer, i, B, c);
        ImageAt(layer[..n], i, B, c);
      }
    } else {
      forall c | 0 <= c < B ensures now[c] == was[c] {
        ImageAt(layer, i, B, c);
        ImageAt(layer[..n], i, B, c);
      }
      assert now == was;
    }
  }

  // ------------------------------------------- effect on the representation

  lemma DistinctAppend(lv: Layers, j: nat, b: nat)
    requires j < |lv| && Distinct(lv) && b != 0 && !Owns(lv, b)
    ensures Distinct(Append(lv, j, b))
    ensures Owned(Append(lv, j, b)) == Owned(lv) + {b}
  {
    var lv' := Append(lv, j, b);
    assert forall k, i :: 0 <= k < |lv'| && 0 <= i < |lv'[k]| && !(k == j && i == |lv[j]|) ==>
                            i < |lv[k]| && lv'[k][i] == lv[k][i];
    assert lv'[j][|lv[j]|] == b;
    forall x | x in Owned(lv) ensures x in Owned(lv') {
      var k, i :| 0 <= k < |lv| && 0 <= i < |lv[k]| && lv[k][i] == x;
      assert lv'[k][i] == x;
    }
  }

  /** Pages of the tree other than p are the same before and after. */
  ghost predicate SameBut(pages: map<nat, seq<nat>>, pages': map<nat, seq<nat>>, lv: Layers, p: nat) {
    forall j, i :: 0 <= j < |lv| && 0 <= i < |lv[j]| && lv[j][i] != p && lv[j][i] in pages ==>
      lv[j][i] in pages' && pages'[lv[j][i]] == pages[lv[j][i]]
  }

  /** The page of layer j+1 that holds entry n of layer j, or 0 at the root. */
  function ParentOf(lv: Layers, j: nat, n: nat, B: nat): nat
    requires B > 0
  {
    if j + 1 < |lv| then Slot(lv[j + 1], n / B) else 0
  }

  /** The next free entry of layer j was written with b in its parent page, or
      in the root array for the top layer. */
  ghost predicate EntryWritten(pages: map<nat, seq<nat>>, roots: seq<nat>, lv: Layers, B: nat, j: nat, b: nat,
                               pages': map<nat, seq<nat>>, roots': seq<nat>)
    requires B > 0 && j < |lv|
  {
    var n := |lv[j]|;
    if j + 1 == |lv| then
      |roots| == ROOTS && n < ROOTS && roots' == roots[n := b]
    else
      && roots' == roots
      && n / B < |lv[j + 1]|
      && var p := lv[j + 1][n / B];
         p in pages && p in pages' && |pages[p]| == B && pages'[p] == pages[p][n % B := b]
  }

  lemma PagesAppend(pages: map<nat, seq<nat>>, roots: seq<nat>, lv: Layers, B: nat, j: nat, b: nat,
                    pages': map<nat, seq<nat>>, roots': seq<nat>)
    requires B > 0 && j < |lv| && Distinct(lv) && PagesMatch(pages, lv, B)
    requires EntryWritten(pages, roots, lv, B, j, b, pages', roots')
    requires SameBut(pages, pages', lv, ParentOf(lv, j, |lv[j]|, B))
    requires j > 0 ==> b in pages' && pages'[b] == Image(lv[j - 1], |lv[j]|, B)
    ensures PagesMatch(pages', Append(lv, j, b), B)
  {
    hide Image;
    var lv' := Append(lv, j, b);
    var p := ParentOf(lv, j, |lv[j]|, B);
    forall k, i | 1 <= k < |lv'| && 0 <= i < |lv'[k]|
      ensures lv'[k][i] in pages' && pages'[lv'[k][i]] == Image(lv'[k - 1], i, B)
    {
      if k == j && i == |lv[j]| {
      } else if k == j + 1 {
        ImageAppend(lv[j], b, i, B);
        assert lv[k][i] == p <==> i == |lv[j]| / B;
      } else {
        assert lv'[k][i] == lv[k][i] != p;
      }
    }
  }

  lemma ShapedAppend(lv: Layers, B: nat, j: nat, b: nat)
    requires B > 0 && j < |lv| && Shaped(lv, B)
    requires if j + 1 == |lv| then |lv[j]| < ROOTS else |lv[j]| / B < |lv[j + 1]|
    ensures Shaped(Append(lv, j, b), B)
  {
    var lv' := Append(lv, j, b);
    forall k | 0 < k < |lv'| ensures |lv'[k - 1]| <= |lv'[k]| * B {
      assert |lv[k - 1]| <= |lv[k]| * B;
      if k == j + 1 {
        MulDiv(|lv[j]|, |lv[k]|, B);
      } else if k == j {
        MulLess(|lv[j]|, |lv'[j]|, B);
      }
    }
  }

  lemma MulDiv(x: nat, n: nat, B: nat)
    requires B > 0 && x / B < n
    ensures x < n * B
  {
    MulLess(x / B, n, B);
  }

  /** Storing a fresh block number in the next free entry of layer j keeps the
      representation; above the data layer the new page starts zeroed. */
  lemma RepAppend(pages: map<nat, seq<nat>>, roots: seq<nat>, lv: Layers, B: nat, j: nat, b: nat,
                  pages': map<nat, seq<nat>>, roots': seq<nat>)
    requires B > 0 && Rep(pages, roots, lv, B) && j < |lv| && b != 0 && !Owns(lv, b)
    requires EntryWritten(pages, roots, lv, B, j, b, pages', roots')
    requires SameBut(pages, pages', lv, ParentOf(lv, j, |lv[j]|, B))
    requires j > 0 ==> b in pages' && pages'[b] == Zeros(B)
    ensures Rep(pages', roots', Append(lv, j, b), B)
    ensures Owned(Append(lv, j, b)) == Owned(lv) + {b}
  {
    var lv' := Append(lv, j, b);
    DistinctAppend(lv, j, b);
    if j > 0 { ImageEmpty(lv[j - 1], |lv[j]|, B); }
    PagesAppend(pages, roots, lv, B, j, b, pages', roots');
    ShapedAppend(lv, B, j, b);
    assert roots' == RootImage(lv'[|lv'| - 1]);
  }

  lemma DistinctCut(lv: Layers, j: nat, n: nat)
    requires j < |lv| && n <= |lv[j]| && Distinct(lv)
    ensures Distinct(Cut(lv, j, n))
    ensures Owned(Cut(lv, j, n)) == Owned(lv) - Elements(lv[j][n..])
    ensures Elements(lv[j][n..]) <= Owned(lv)
  {
    var lv' := Cut(lv, j, n);
    assert forall k, i :: 0 <= k < |lv'| && 0 <= i < |lv'[k]| ==> i < |lv[k]| && lv'[k][i] == lv[k][i];
    forall m | n <= m < |lv[j]| ensures lv[j][m] in lv[j][n..] {
      assert lv[j][n..][m - n] == lv[j][m];
    }
    forall x | x in Owned(lv) && x !in lv[j][n..] ensures x in Owned(lv') {
      var k, i :| 0 <= k < |lv| && 0 <= i < |lv[k]| && lv[k][i] == x;
      assert lv'[k][i] == x;
    }
    forall x | x in lv[j][n..] ensures x in Owned(lv) && x !in Owned(lv') {
      var m :| 0 <= m < |lv[j][n..]| && lv[j][n..][m] == x;
      assert lv[j][n + m] == x;
    }
  }

  /** Entries n.. of layer j were zeroed in page q of the layer above, or in
      the root array for the top layer. */
  ghost predicate EntriesCleared(pages: map<nat, seq<nat>>, roots: seq<nat>, lv: Layers, B: nat, j: nat, n: nat, q: nat,
                                 pages': map<nat, seq<nat>>, roots': seq<nat>)
    requires B > 0 && j < |lv| && n <= |lv[j]|
  {
    var len := |lv[j]|;
    if j + 1 == |lv| then
      |roots| == ROOTS && len <= ROOTS && roots' == roots[..n] + Zeros(len - n) + roots[len..]
    else
      && roots' == roots
      && q < |lv[j + 1]| && q * B <= n && len <= q * B + B
      && var p := lv[j + 1][q];
         p in pages && p in pages' && |pages[p]| == B &&
         pages'[p] == pages[p][..n - q * B] + Zeros(len - n) + pages[p][len - q * B..]
  }

  lemma PagesCut(pages: map<nat, seq<nat>>, roots: seq<nat>, lv: Layers, B: nat, j: nat, n: nat, q: nat,
                 pages': map<nat, seq<nat>>, roots': seq<nat>)
    requires B > 0 && j < |lv| && n <= |lv[j]| && Distinct(lv) && PagesMatch(pages, lv, B)
    requires EntriesCleared(pages, roots, lv, B, j, n, q, pages', roots')
    requires j > 0 ==> |lv[j - 1]| <= n * B
    requires SameBut(pages, pages', lv, if j + 1 < |lv| then lv[j + 1][q] else 0)
    ensures PagesMatch(pages', Cut(lv, j, n), B)
  {
    hide Image;
    var lv' := Cut(lv, j, n);
    forall k, i | 1 <= k < |lv'| && 0 <= i < |lv'[k]|
      ensures lv'[k][i] in pages' && pages'[lv'[k][i]] == Image(lv'[k - 1], i, B)
    {
      assert lv'[k][i] == lv[k][i];
      if k == j + 1 {
        ImageCut(lv[j], n, q, i, B);
        assert lv[k][i] == lv[j + 1][q] <==> i == q;
      } else if j + 1 < |lv| {
        assert lv[k][i] != lv[j + 1][q];
      }
    }
  }

  /** Dropping entries n.. of layer j, whose own pages must be empty, keeps the
      representation and gives up exactly those blocks. */
  lemma RepCut(pages: map<nat, seq<nat>>, roots: seq<nat>, lv: Layers, B: nat, j: nat, n: nat, q: nat,
               pages': map<nat, seq<nat>>, roots': seq<nat>)
    requires B > 0 && Rep(pages, roots, lv, B) && j < |lv| && n <= |lv[j]|
    requires j > 0 ==> |lv[j - 1]| <= n * B
    requires EntriesCleared(pages, roots, lv, B, j, n, q, pages', roots')
    requires SameBut(pages, pages', lv, if j + 1 < |lv| then lv[j + 1][q] else 0)
    ensures Rep(pages', roots', Cut(lv, j, n), B)
    ensures Owned(Cut(lv, j, n)) == Owned(lv) - Elements(lv[j][n..])
    ensures Elements(lv[j][n..]) <= Owned(lv)
  {
    var lv' := Cut(lv, j, n);
    DistinctCut(lv, j, n);
    PagesCut(pages, roots, lv, B, j, n, q, pages', roots');
    assert forall k :: 0 <= k < |lv'| && k != j ==> lv'[k] == lv[k];
    assert roots' == RootImage(lv'[|lv'| - 1]);
  }

  /** A full root array moved into one new page: the tree gains a level and
      keeps every layer. This needs pages of at least ROOTS pointers. */
  lemma RepDeepen(pages: map<nat, seq<nat>>, roots: seq<nat>, lv: Layers, B: nat, b: nat,
                  pages': map<nat, seq<nat>>, roots': seq<nat>)
    requires B >= ROOTS && Rep(pages, roots, lv, B) && b != 0 && !Owns(lv, b)
    requires SameBut(pages, pages', lv, 0)
    requires b in pages' && pages'[b] == roots + Zeros(B - ROOTS)
    requires roots' == Zeros(ROOTS)[0 := b]
    ensures Rep(pages', roots', lv + [[b]], B)
    ensures Owned(lv + [[b]]) == Owned(lv) + {b}
  {
    var lv' := lv + [[b]];
    assert lv'[..|lv|] == lv && lv'[|lv|] == [b];
    OwnedOfPrefix(lv');
    OwnsMember(lv, b);
    DistinctDeepen(lv, b);
    PagesDeepen(pages, roots, lv, B, b, pages');
    ShapedDeepen(lv, B, b);
    assert Elements([b]) == {b};
    assert roots' == RootImage([b]);
  }

  lemma OwnsMember(lv: Layers, b: nat)
    ensures Owns(lv, b) <==> b in Owned(lv)
  {}

  lemma ShapedDeepen(lv: Layers, B: nat, b: nat)
    requires B >= ROOTS && Shaped(lv, B)
    ensures Shaped(lv + [[b]], B)
  {
    var lv' := lv + [[b]];
    forall k | 0 < k < |lv'| ensures |lv'[k - 1]| <= |lv'[k]| * B {
      if k < |lv| { assert |lv[k - 1]| <= |lv[k]| * B; }
    }
  }

  lemma DistinctDeepen(lv: Layers, b: nat)
    requires Distinct(lv) && b != 0 && !Owns(lv, b)
    ensures Distinct(lv + [[b]])
  {
    var lv' := lv + [[b]];
    assert forall k, i :: 0 <= k < |lv'| && 0 <= i < |lv'[k]| ==>
                            if k < |lv| then lv'[k][i] == lv[k][i] else lv'[k][i] == b && i == 0;
  }

  lemma PagesDeepen(pages: map<nat, seq<nat>>, roots: seq<nat>, lv: Layers, B: nat, b: nat, pages': map<nat, seq<nat>>)
    requires B >= ROOTS && Distinct(lv) && PagesMatch(pages, lv, B) && SameBut(pages, pages', lv, 0)
    requires |lv| > 0 && |lv[|lv| - 1]| <= ROOTS && roots == RootImage(lv[|lv| - 1])
    requires b in pages' && pages'[b] == roots + Zeros(B - ROOTS)
    ensures PagesMatch(pages', lv + [[b]], B)
  {
    var lv' := lv + [[b]];
    forall k, i | 1 <= k < |lv'| && 0 <= i < |lv'[k]|
      ensures lv'[k][i] in pages' && pages'[lv'[k][i]] == Image(lv'[k - 1], i, B)
    {
      if k < |lv| {
        assert lv'[k][i] == lv[k][i] && lv'[k - 1] == lv[k - 1];
      } else {
        RootsAsPage(lv[|lv| - 1], B);
      }
    }
  }

  lemma RootsAsPage(layer: seq<nat>, B: nat)
    requires B >= ROOTS && |layer| <= ROOTS
    ensures RootImage(layer) + Zeros(B - ROOTS) == Image(layer, 0, B)
  {
    var page := RootImage(layer) + Zeros(B - ROOTS);
    forall c | 0 <= c < B ensures page[c] == Image(layer, 0, B)[c] {
      ImageAt(layer, 0, B, c);
    }
  }
}
