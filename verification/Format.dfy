/** The layout that create_filesystem computes (utils/dfs/super.c) and the
    allocator state it leaves behind. */
module Format {
  import opened Arith
  import opened Basics
  import opened Bitmap
  import opened Allocator

  const SECTOR: nat := 512
  const INODE_SIZE: nat := 128
  const GROUPDESC_SIZE: nat := 32
  const RESERVED_BLOCKS: nat := 16
  const RESERVED_INODES: nat := 16

  datatype Layout =
    Layout(bs: nat, bpg: nat, ipg: nat, blockCount: nat, inodeBlocks: nat, groupCount: nat, firstReserved: nat,
           descTable: nat, descBlocks: nat)

  function MinNat(a: nat, b: nat): nat {
    if a < b then a else b
  }

  function Quotient(a: nat, b: nat): nat
    requires b > 0
  {
    a / b
  }

  function Rest(a: nat, b: nat): nat
    requires b > 0
  {
    a % b
  }

  /** Whether the last group is too small for its own metadata and is skipped. */
  predicate TailDropped(blockCount: nat, bpg: nat, inodeBlocks: nat)
    requires bpg > 0
  {
    0 < blockCount % bpg < inodeBlocks + 2
  }

  function MakeLayout(bs: nat, blockCount: nat, ratio: nat): Layout
    requires bs > 0 && ratio > 0
  {
    var bpg := 8 * bs;
    var ipg := MinNat(Quotient(bs * MinNat(bpg, blockCount), ratio), 8 * bs);
    var inodeBlocks := CeilDiv(ipg * INODE_SIZE, bs);
    var groups := CeilDiv(blockCount, bpg);
    var descBlocks := CeilDiv(groups * GROUPDESC_SIZE, bs);
    var first := if bs <= SECTOR then 2 else 1;
    Layout(bs, bpg, ipg, blockCount, inodeBlocks,
           if groups > 0 && TailDropped(blockCount, bpg, inodeBlocks) then groups - 1 else groups,
           first, first + RESERVED_BLOCKS, descBlocks)
  }

  /** Blocks at the start of a group that hold metadata. */
  function Meta(l: Layout, g: nat): nat {
    (if g == 0 then l.descTable + l.descBlocks else 0) + 2 + l.inodeBlocks
  }

  function GroupLen(l: Layout, g: nat): int {
    if l.bpg * (g + 1) > l.blockCount then l.blockCount - l.bpg * g else l.bpg
  }

  /** The volumes create_filesystem formats: the first group holds its metadata, and
      there are inodes to reserve. */
  ghost predicate Formattable(bs: nat, blockCount: nat, ratio: nat) {
    && SECTOR <= bs < 0x1000_0000 && ratio > 0 && blockCount > 0
    && var l := MakeLayout(bs, blockCount, ratio);
       && l.groupCount > 0
       && Meta(l, 0) <= GroupLen(l, 0)
       && l.ipg >= RESERVED_INODES
  }

  /** Besides, no group is dropped. */
  ghost predicate Usable(bs: nat, blockCount: nat, ratio: nat) {
    && Formattable(bs, blockCount, ratio)
    && var l := MakeLayout(bs, blockCount, ratio); !TailDropped(blockCount, l.bpg, l.inodeBlocks)
  }

  // ------------------------------------------------------- what the sizes are for

  /** Everything fits where it goes, with no block to spare: a bitmap block has a bit
      for each block and inode of its group, there is one inode for every `ratio`
      bytes of a group as long as the bitmap has bits, and the super block, the group
      descriptors and the inodes of a group fit their areas. */
  ghost predicate Fits(l: Layout, ratio: nat) {
    && l.bs > 0 && l.bpg == 8 * l.bs && l.ipg <= 8 * l.bs
    && l.ipg * ratio <= l.bs * MinNat(l.bpg, l.blockCount)
    && (l.ipg < 8 * l.bs ==> l.bs * MinNat(l.bpg, l.blockCount) < (l.ipg + 1) * ratio)
    && (l.bs % SECTOR == 0 ==> (l.firstReserved - 1) * l.bs < 2 * SECTOR <= l.firstReserved * l.bs)
    && l.ipg * INODE_SIZE <= l.inodeBlocks * l.bs < l.ipg * INODE_SIZE + l.bs
    && l.groupCount * GROUPDESC_SIZE <= l.descBlocks * l.bs < (l.groupCount + 1) * GROUPDESC_SIZE + l.bs
  }

  lemma LayoutFits(bs: nat, blockCount: nat, ratio: nat)
    requires bs >= SECTOR && ratio > 0
    ensures Fits(MakeLayout(bs, blockCount, ratio), ratio)
  {
    hide CeilDiv, Quotient, MakeLayout, MinNat;
    var l := MakeLayout(bs, blockCount, ratio);
    var groups, all := CeilDiv(blockCount, 8 * bs), bs * MinNat(8 * bs, blockCount);
    LayoutFields(bs, blockCount, ratio, groups, all);
    CeilDivChar(l.ipg * INODE_SIZE, bs, l.inodeBlocks);
    DescsFit(groups, l.groupCount, l.descBlocks, bs);
    QuotientOf(all, ratio);
    RatioLines(Quotient(all, ratio), l.ipg, ratio, all);
  }

  lemma LayoutFields(bs: nat, blockCount: nat, ratio: nat, groups: nat, all: nat)
    requires bs > 0 && ratio > 0 && groups == CeilDiv(blockCount, 8 * bs) && all == bs * MinNat(8 * bs, blockCount)
    ensures var l := MakeLayout(bs, blockCount, ratio);
            && l.bs == bs && l.bpg == 8 * bs && l.blockCount == blockCount
            && l.ipg <= Quotient(all, ratio) && l.ipg <= 8 * bs && (l.ipg < 8 * bs ==> l.ipg == Quotient(all, ratio))
            && l.inodeBlocks == CeilDiv(l.ipg * INODE_SIZE, bs)
            && l.groupCount <= groups <= l.groupCount + 1 && l.descBlocks == CeilDiv(groups * GROUPDESC_SIZE, bs)
            && l.firstReserved == if bs <= SECTOR then 2 else 1
  {
    hide CeilDiv, Quotient, TailDropped;
  }

  lemma DescsFit(groups: nat, count: nat, descBlocks: nat, bs: nat)
    requires bs > 0 && count <= groups <= count + 1 && descBlocks == CeilDiv(groups * GROUPDESC_SIZE, bs)
    ensures count * GROUPDESC_SIZE <= descBlocks * bs < (count + 1) * GROUPDESC_SIZE + bs
  {
    hide CeilDiv;
    CeilDivChar(groups * GROUPDESC_SIZE, bs, descBlocks);
  }

  lemma QuotientOf(a: nat, b: nat)
    requires b > 0
    ensures Quotient(a, b) * b <= a < Quotient(a, b) * b + b
  {
    DivFacts(a, b);
  }

  lemma RatioLines(q: nat, n: nat, ratio: nat, all: nat)
    requires q * ratio <= all < q * ratio + ratio && n <= q
    ensures n * ratio <= all && (n == q ==> all < (n + 1) * ratio)
  {
    if n < q { MulLess(n, q, ratio); }
  }

  // --------------------------------------------------------------- where things are

  /** What a group descriptor says about the group's metadata. */
  datatype Desc = Desc(blockBitmap: nat, inodeBitmap: nat, inodeTable: nat)

  datatype Part =
    SuperBlock | ReservedBlocks | DescTable | BlockBitmap(g: nat) | InodeBitmap(g: nat) | InodeTable(g: nat)

  datatype Area = Area(start: nat, len: nat)

  predicate IsPart(l: Layout, part: Part) {
    part.SuperBlock? || part.ReservedBlocks? || part.DescTable? || part.g < l.groupCount
  }

  function AreaOf(l: Layout, descs: seq<Desc>, part: Part): Area
    requires IsPart(l, part) && |descs| == l.groupCount
  {
    match part
    case SuperBlock => Area(0, l.firstReserved)
    case ReservedBlocks => Area(l.firstReserved, RESERVED_BLOCKS)
    case DescTable => Area(l.descTable, l.descBlocks)
    case BlockBitmap(g) => Area(descs[g].blockBitmap, 1)
    case InodeBitmap(g) => Area(descs[g].inodeBitmap, 1)
    case InodeTable(g) => Area(descs[g].inodeTable, l.inodeBlocks)
  }

  ghost predicate InPart(l: Layout, descs: seq<Desc>, part: Part, b: nat) {
    && IsPart(l, part) && |descs| == l.groupCount
    && var a := AreaOf(l, descs, part); a.start <= b < a.start + a.len
  }

  /** The metadata of a volume. */
  ghost function MetaSet(l: Layout, descs: seq<Desc>): set<nat> {
    set b | 0 <= b < l.blockCount && IsMeta(l, descs, b)
  }

  ghost predicate IsMeta(l: Layout, descs: seq<Desc>, b: nat) {
    exists part :: InPart(l, descs, part, b)
  }

  /** All parts are on the volume, those of a group in that group, and no two of
      them share a block. */
  ghost predicate Apart(l: Layout, descs: seq<Desc>) {
    && |descs| == l.groupCount
    && (forall part, b: nat :: InPart(l, descs, part, b) ==> b < l.blockCount)
    && (forall part, b: nat :: InPart(l, descs, part, b) ==> GroupStart(l, part) <= b < GroupStart(l, part) + l.bpg)
    && (forall p, q, b: nat :: InPart(l, descs, p, b) && InPart(l, descs, q, b) ==> p == q)
  }

  function GroupStart(l: Layout, part: Part): nat {
    match part
    case BlockBitmap(g) => g * l.bpg
    case InodeBitmap(g) => g * l.bpg
    case InodeTable(g) => g * l.bpg
    case _ => 0
  }

  /** Where the loop of create_filesystem puts the parts of a group. */
  ghost predicate Placed(l: Layout, descs: seq<Desc>, n: nat) {
    n <= |descs| && forall g :: 0 <= g < n ==>
      var at := l.bpg * g + if g == 0 then l.descTable + l.descBlocks else 0;
      descs[g] == Desc(at, at + 1, at + 2)
  }

  /** Where in its group a part is. */
  ghost predicate AtIndex(l: Layout, part: Part, g: nat, i: nat) {
    match part
    case SuperBlock => g == 0 && i < l.firstReserved
    case ReservedBlocks => g == 0 && l.firstReserved <= i < l.descTable
    case DescTable => g == 0 && l.descTable <= i < l.descTable + l.descBlocks
    case BlockBitmap(h) => g == h && i == Meta(l, g) - 2 - l.inodeBlocks
    case InodeBitmap(h) => g == h && i == Meta(l, g) - 1 - l.inodeBlocks
    case InodeTable(h) => g == h && Meta(l, g) - l.inodeBlocks <= i < Meta(l, g)
  }

  lemma PartOf(l: Layout, descs: seq<Desc>, part: Part, b: nat, g: nat, i: nat)
    requires Sized(l) && Placed(l, descs, l.groupCount) && |descs| == l.groupCount
    requires b == g * l.bpg + i && i < l.bpg && g < l.groupCount
    ensures InPart(l, descs, part, b) <==> AtIndex(l, part, g, i)
  {
    hide GroupLen, Sized;
    SizedSome(l);
    var h := if part.SuperBlock? || part.ReservedBlocks? || part.DescTable? then 0 else part.g;
    if h < l.groupCount {
      SizedFacts(l, h);
      InGroup(b, g, i, h, l.bpg);
      CommuteMul(l.bpg, h);
      PartLines(l, descs, part, b, g, i, h);
    }
  }

  lemma PartLines(l: Layout, descs: seq<Desc>, part: Part, b: nat, g: nat, i: nat, h: nat)
    requires Placed(l, descs, l.groupCount) && |descs| == l.groupCount && h < l.groupCount && IsPart(l, part)
    requires h == if part.SuperBlock? || part.ReservedBlocks? || part.DescTable? then 0 else part.g
    requires b == g * l.bpg + i && l.bpg * h == h * l.bpg && (h * l.bpg <= b < h * l.bpg + l.bpg <==> g == h)
    requires Meta(l, h) <= l.bpg && l.descTable == l.firstReserved + RESERVED_BLOCKS
    ensures InPart(l, descs, part, b) <==> AtIndex(l, part, g, i)
  {}

  /** A place within group h is in group g only for g == h. */
  lemma InGroup(b: nat, g: nat, i: nat, h: nat, bpg: nat)
    requires b == g * bpg + i && i < bpg
    ensures h * bpg <= b < h * bpg + bpg <==> g == h
  {
    if g < h { MulLess(g, h, bpg); }
    if h < g { MulLess(h, g, bpg); }
  }

  /** The layout of a volume whose groups cover it. */
  ghost predicate Sized(l: Layout) {
    && 0 < l.bs && 8 * l.bs < NO_HINT && l.bpg == 8 * l.bs && RESERVED_INODES <= l.ipg <= 8 * l.bs
    && l.groupCount > 0 && (l.groupCount - 1) * l.bpg < l.blockCount <= l.groupCount * l.bpg
    && l.descTable == l.firstReserved + RESERVED_BLOCKS
    && (forall g :: 0 <= g < l.groupCount ==> Meta(l, g) <= GroupLen(l, g) <= l.bpg)
    && (forall g :: 0 <= g < l.groupCount - 1 ==> GroupLen(l, g) == l.bpg)
    && l.blockCount == (l.groupCount - 1) * l.bpg + GroupLen(l, l.groupCount - 1)
  }

  lemma SizedFacts(l: Layout, g: nat)
    requires Sized(l) && g < l.groupCount
    ensures Meta(l, g) <= GroupLen(l, g) <= l.bpg && 0 < l.bpg
    ensures l.descTable == l.firstReserved + RESERVED_BLOCKS
  {}

  lemma SizedSome(l: Layout)
    requires Sized(l)
    ensures l.groupCount > 0
  {}

  lemma PartsApart(l: Layout, descs: seq<Desc>)
    requires Sized(l) && Placed(l, descs, l.groupCount) && |descs| == l.groupCount
    ensures Apart(l, descs)
  {
    hide Sized, Placed, GroupLen, AreaOf, InPart;
    forall part, b: nat | InPart(l, descs, part, b)
      ensures b < l.blockCount && GroupStart(l, part) <= b < GroupStart(l, part) + l.bpg
    {
      var g, i := PartWithin(l, descs, part, b);
    }
    forall p, q, b: nat | InPart(l, descs, p, b) && InPart(l, descs, q, b) ensures p == q {
      var g, i := PartWithin(l, descs, p, b);
      PartOf(l, descs, p, b, g, i);
      PartOf(l, descs, q, b, g, i);
      SizedFacts(l, g);
    }
  }

  lemma PartWithin(l: Layout, descs: seq<Desc>, part: Part, b: nat) returns (g: nat, i: nat)
    requires Sized(l) && Placed(l, descs, l.groupCount) && |descs| == l.groupCount && InPart(l, descs, part, b)
    ensures b == g * l.bpg + i && i < l.bpg && g < l.groupCount && i < Meta(l, g) && b < l.blockCount
    ensures GroupStart(l, part) == g * l.bpg
  {
    hide Sized;
    g := if part.SuperBlock? || part.ReservedBlocks? || part.DescTable? then 0 else part.g;
    SizedSome(l);
    SizedFacts(l, g);
    CommuteMul(l.bpg, g);
    i := b - g * l.bpg;
    WithinVolume(l, g, i);
  }

  lemma WithinVolume(l: Layout, g: nat, i: nat)
    requires Sized(l) && g < l.groupCount && i < GroupLen(l, g)
    ensures g * l.bpg + i < l.blockCount
  {
    if g < l.groupCount - 1 { MulLess(g, l.groupCount - 1, l.bpg); }
  }

  /** The metadata is the start of every group. */
  lemma MetaIsPrefix(l: Layout, descs: seq<Desc>, b: nat, g: nat, i: nat)
    requires Sized(l) && Placed(l, descs, l.groupCount) && |descs| == l.groupCount
    requires b == g * l.bpg + i && i < l.bpg && g < l.groupCount && b < l.blockCount
    ensures b in MetaSet(l, descs) <==> i < Meta(l, g)
  {
    hide Sized, Placed, GroupLen, InPart;
    SizedFacts(l, g);
    forall part ensures InPart(l, descs, part, b) ==> i < Meta(l, g) {
      PartOf(l, descs, part, b, g, i);
    }
    if i < Meta(l, g) {
      var part :=
        if i >= Meta(l, g) - l.inodeBlocks then InodeTable(g)
        else if i == Meta(l, g) - 1 - l.inodeBlocks then InodeBitmap(g)
        else if i == Meta(l, g) - 2 - l.inodeBlocks then BlockBitmap(g)
        else if i >= l.descTable then DescTable
        else if i >= l.firstReserved then ReservedBlocks
        else SuperBlock;
      PartOf(l, descs, part, b, g, i);
    }
  }

  // ------------------------------------------------------------------- the groups

  lemma {:induction false} ClearOfPrefix(bits: seq<bool>, n: nat, used: nat)
    requires n <= |bits| && forall k :: 0 <= k < n ==> bits[k] == (k < used)
    ensures Clear(bits, n) == if used <= n then n - used else 0
  {
    if n > 0 { ClearOfPrefix(bits, n - 1, used); }
  }

  /** The blocks that are in a group. */
  function Covered(l: Layout): nat {
    MinNat(l.groupCount * l.bpg, l.blockCount)
  }

  /** How the groups cover the volume: up to the last block unless the tail is
      dropped, and then up to the tail. */
  lemma Coverage(bs: nat, blockCount: nat, ratio: nat)
    requires Formattable(bs, blockCount, ratio)
    ensures var l := MakeLayout(bs, blockCount, ratio);
            var tail := if TailDropped(blockCount, 8 * bs, l.inodeBlocks) then blockCount % (8 * bs) else 0;
            && l.groupCount > 0 && Covered(l) + tail == blockCount
            && (l.groupCount - 1) * l.bpg < Covered(l) <= l.groupCount * l.bpg
            && l.bpg == 8 * bs && l.blockCount == blockCount && l.ipg <= 8 * bs && l.bs == bs
  {
    var l := MakeLayout(bs, blockCount, ratio);
    var groups := CeilDiv(blockCount, l.bpg);
    CeilDivChar(blockCount, l.bpg, groups);
    assert (l.groupCount - 1) * l.bpg == l.groupCount * l.bpg - l.bpg;
    assert (groups - 1) * l.bpg == groups * l.bpg - l.bpg;
    LastLen(l.bpg, groups - 1, blockCount);
  }

  lemma InodeBlocksBound(bs: nat, ipg: nat)
    requires bs > 0 && ipg <= 8 * bs
    ensures CeilDiv(ipg * INODE_SIZE, bs) <= 1024
  {
    CeilDivChar(1024 * bs, bs, 1024);
    DivMonotone(ipg * INODE_SIZE + bs - 1, 1024 * bs + bs - 1, bs);
  }

  lemma LenOfGroup(l: Layout, g: nat)
    requires g < l.groupCount && l.bpg > 0
    requires (l.groupCount - 1) * l.bpg < l.blockCount <= l.groupCount * l.bpg
    ensures g < l.groupCount - 1 ==> GroupLen(l, g) == l.bpg
    ensures g == l.groupCount - 1 ==> 0 < GroupLen(l, g) == l.blockCount - g * l.bpg <= l.bpg
    ensures l.blockCount == (l.groupCount - 1) * l.bpg + GroupLen(l, l.groupCount - 1)
  {
    CommuteMul(l.bpg, g);
    CommuteMul(l.bpg, g + 1);
    CommuteMul(l.bpg, l.groupCount - 1);
    CommuteMul(l.bpg, l.groupCount);
    if g < l.groupCount - 1 { MulLess(g, l.groupCount - 1, l.bpg); }
  }

  /** The same groups have the same sizes if the volume ends with the last of them. */
  lemma SameLen(l: Layout, g: nat)
    requires g < l.groupCount
    ensures GroupLen(l.(blockCount := Covered(l)), g) == GroupLen(l, g)
  {
    CommuteMul(l.bpg, g + 1);
    MulLess(g, l.groupCount, l.bpg);
    assert (g + 1) * l.bpg == g * l.bpg + l.bpg;
    if g + 1 < l.groupCount { MulLess(g + 1, l.groupCount, l.bpg); }
  }

  /** Every group holds its metadata, and all but the last are full size. */
  lemma LayoutSized(bs: nat, blockCount: nat, ratio: nat)
    requires Formattable(bs, blockCount, ratio)
    ensures var l := MakeLayout(bs, blockCount, ratio); Sized(l.(blockCount := Covered(l)))
  {
    hide MakeLayout, GroupLen, CeilDiv;
    Coverage(bs, blockCount, ratio);
    var l := MakeLayout(bs, blockCount, ratio);
    var l' := l.(blockCount := Covered(l));
    InodeBlocksOf(bs, blockCount, ratio);
    forall g | 0 <= g < l.groupCount
      ensures Meta(l', g) <= GroupLen(l', g) <= l.bpg && (g < l.groupCount - 1 ==> GroupLen(l', g) == l.bpg)
    {
      SameLen(l, g);
      LenOfGroup(l', g);
      if 0 < g == l.groupCount - 1 { LastHolds(bs, blockCount, ratio, g); }
    }
    LenOfGroup(l', l.groupCount - 1);
  }

  /** The last group is not dropped, so that it holds its metadata. */
  lemma LastHolds(bs: nat, blockCount: nat, ratio: nat, g: nat)
    requires Formattable(bs, blockCount, ratio) && 0 < g == MakeLayout(bs, blockCount, ratio).groupCount - 1
    ensures var l := MakeLayout(bs, blockCount, ratio); Meta(l, g) <= Covered(l) - g * l.bpg
  {
    hide MakeLayout, CeilDiv;
    Coverage(bs, blockCount, ratio);
    var l := MakeLayout(bs, blockCount, ratio);
    InodeBlocksOf(bs, blockCount, ratio);
    assert l.groupCount * l.bpg == g * l.bpg + l.bpg;
    if Covered(l) < l.groupCount * l.bpg { LastLen(l.bpg, g, blockCount); }
  }

  lemma InodeBlocksOf(bs: nat, blockCount: nat, ratio: nat)
    requires bs > 0 && ratio > 0
    ensures var l := MakeLayout(bs, blockCount, ratio);
            l.inodeBlocks <= 1024 && l.descTable == l.firstReserved + RESERVED_BLOCKS
  {
    InodeBlocksBound(bs, MakeLayout(bs, blockCount, ratio).ipg);
  }

  lemma CommuteMul(a: nat, b: nat)
    ensures a * b == b * a
  {}

  /** The last group's length is the remainder, or a whole group. */
  lemma LastLen(bpg: nat, last: nat, blockCount: nat)
    requires bpg > 0 && last * bpg < blockCount <= last * bpg + bpg
    ensures blockCount % bpg == if blockCount == last * bpg + bpg then 0 else blockCount - last * bpg
  {
    if blockCount == last * bpg + bpg {
      assert blockCount == (last + 1) * bpg + 0;
      DivModUnique(blockCount, last + 1, 0, bpg);
    } else {
      DivModUnique(blockCount, last, blockCount - last * bpg, bpg);
    }
  }

  function Prefix(used: nat, n: nat): (bits: seq<bool>)
    ensures |bits| == n && forall k :: 0 <= k < n ==> bits[k] == (k < used)
  {
    seq(n, k => k < used)
  }

  /** A fresh bitmap of n positions, the first `used` of len in use. */
  function FreshMap(used: nat, len: nat, n: nat): Map {
    Map(Prefix(used, n), len, len - used, 0)
  }

  lemma FreshCounted(used: nat, len: nat, n: nat)
    requires used <= len <= n < NO_HINT
    ensures Counted(FreshMap(used, len, n)) && HintSound(FreshMap(used, len, n))
  {
    ClearOfPrefix(Prefix(used, n), len, used);
  }

  /** The state after the loop over the groups: nothing but metadata is in use. */
  ghost predicate Fresh(l: Layout, descs: seq<Desc>, blocks: Pool, inodes: Pool) {
    && Consistent(blocks) && HintsSound(blocks) && HintsKnown(blocks)
    && Consistent(inodes) && HintsSound(inodes) && HintsKnown(inodes)
    && |blocks.maps| == |inodes.maps| == l.groupCount
    && blocks.per == l.bpg && blocks.total == l.blockCount
    && inodes.per == l.ipg && inodes.total == l.groupCount * l.ipg
    && Apart(l, descs) && FreeSet(blocks) == Range(0, l.blockCount) - MetaSet(l, descs)
    && FreeSet(inodes) == Range(0, inodes.total)
    && (forall g :: 0 <= g < l.groupCount ==> inodes.maps[g].len == l.ipg)
  }

  lemma {:induction false} SumOfFull(maps: seq<Map>, c: int)
    requires forall g :: 0 <= g < |maps| ==> maps[g].clear == c
    ensures Sum(maps) == |maps| * c
  {
    if maps != [] {
      SumOfFull(maps[..|maps| - 1], c);
      assert |maps| * c == (|maps| - 1) * c + c;
    }
  }

  /** The loop of create_filesystem that initialises the groups, with the free
      counts of the super block. The super block's counts of all and of free blocks
      are too high by the dropped tail, if there is one; otherwise everything is as
      it should be. */
  method BuildGroups(bs: nat, blockCount: nat, ratio: nat) returns (descs: seq<Desc>, blocks: Pool, inodes: Pool)
    requires Formattable(bs, blockCount, ratio)
    ensures var l := MakeLayout(bs, blockCount, ratio);
            var tail := if TailDropped(blockCount, 8 * bs, l.inodeBlocks) then blockCount % (8 * bs) else 0;
            && Fits(l, ratio) && blocks.total == blockCount && (Consistent(blocks) <==> tail == 0)
            && Fresh(l.(blockCount := blockCount - tail), descs,
                     blocks.(total := blockCount - tail, free := blocks.free - tail), inodes)
  {
    hide MakeLayout, GroupLen, Meta, CeilDiv, Counted, HintSound, Formattable, Sum, Prefix, Fresh, Fits, Sized,
         Consistent;
    Coverage(bs, blockCount, ratio);
    LayoutSized(bs, blockCount, ratio);
    InFormattable(bs, blockCount, ratio);
    LayoutFits(bs, blockCount, ratio);
    SumOfNone();
    var l := MakeLayout(bs, blockCount, ratio);
    ghost var l' := l.(blockCount := Covered(l));
    descs := [];
    var bmaps: seq<Map>, imaps: seq<Map> := [], [];
    var free: int := blockCount;
    var g := 0;
    while g < l.groupCount
      invariant 0 <= g <= l.groupCount && |bmaps| == |imaps| == |descs| == g && Placed(l', descs, g)
      invariant forall k :: 0 <= k < g ==> Meta(l', k) <= GroupLen(l', k) <= l.bpg &&
                                           bmaps[k] == FreshMap(Meta(l', k), GroupLen(l', k), l.bpg)
      invariant forall k :: 0 <= k < g ==> imaps[k] == FreshMap(0, l.ipg, 8 * bs)
      invariant g < l.groupCount ==> free == blockCount - l.bpg * g + Sum(bmaps)
      invariant g == l.groupCount ==> free == blockCount - Covered(l) + Sum(bmaps)
    {
      SizedFacts(l', g);
      SameLen(l, g);
      var used := if g == 0 then l.descTable + l.descBlocks else 0;
      var first := l.bpg * g;
      var bitmap := first + used;
      used := used + 1;
      var ibitmap := first + used;
      used := used + 1;
      var table := first + used;
      used := used + l.inodeBlocks;
      MetaSteps(l', g, used);
      descs := descs + [Desc(bitmap, ibitmap, table)];
      var len := GroupLen(l, g);
      bmaps := bmaps + [FreshMap(used, len, l.bpg)];
      imaps := imaps + [FreshMap(0, l.ipg, 8 * bs)];
      free := free - used;
      SumOfNext(bmaps, g);
      SizedLast(l', g);
      g := g + 1;
    }
    blocks := Pool(l.bpg, blockCount, bmaps, free);
    inodes := Pool(l.ipg, l.groupCount * l.ipg, imaps, l.groupCount * l.ipg);
    FreshIsFresh(l', descs, blocks.(total := Covered(l), free := Sum(bmaps)), inodes);
    TailMiscounted(l', descs, blocks, inodes, blockCount - Covered(l));
  }

  lemma TailMiscounted(l: Layout, descs: seq<Desc>, p: Pool, inodes: Pool, tail: nat)
    requires tail <= p.total && Fresh(l, descs, p.(total := p.total - tail, free := p.free - tail), inodes)
    ensures Consistent(p) <==> tail == 0
  {
    hide Counted, Sum, Apart, MetaSet, FreeSet, HintsSound, HintsKnown;
  }

  /** For example, 4097 blocks of 512 bytes with an inode for every 4096: the last
      block makes a group of its own, which is dropped. */
  lemma TailExample()
    ensures Formattable(512, 4097, 4096) && !Usable(512, 4097, 4096)
  {
    assert MakeLayout(512, 4097, 4096) == Layout(512, 4096, 512, 4097, 128, 1, 2, 18, 1);
  }

  lemma MetaSteps(l: Layout, g: nat, used: nat)
    requires used == (if g == 0 then l.descTable + l.descBlocks else 0) + 1 + 1 + l.inodeBlocks
    ensures Meta(l, g) == used
  {}

  lemma SumOfNone()
    ensures Sum([]) == 0
  {}

  lemma SumOfNext(maps: seq<Map>, g: nat)
    requires |maps| == g + 1
    ensures Sum(maps) == Sum(maps[..g]) + maps[g].clear
  {}

  lemma InFormattable(bs: nat, blockCount: nat, ratio: nat)
    requires Formattable(bs, blockCount, ratio)
    ensures SECTOR <= bs && ratio > 0 && MakeLayout(bs, blockCount, ratio).ipg >= RESERVED_INODES && 8 * bs < NO_HINT
  {}

  lemma InUsable(bs: nat, blockCount: nat, ratio: nat)
    requires Usable(bs, blockCount, ratio)
    ensures Formattable(bs, blockCount, ratio)
    ensures bs > 0 && ratio > 0 && MakeLayout(bs, blockCount, ratio).ipg >= RESERVED_INODES && 8 * bs < NO_HINT
    ensures MakeLayout(bs, blockCount, ratio).blockCount == blockCount
    ensures !TailDropped(blockCount, 8 * bs, MakeLayout(bs, blockCount, ratio).inodeBlocks)
  {}

  lemma SizedLast(l: Layout, g: nat)
    requires Sized(l) && g < l.groupCount
    ensures g == l.groupCount - 1 ==> GroupLen(l, g) == l.blockCount - l.bpg * g
    ensures g < l.groupCount - 1 ==> GroupLen(l, g) == l.bpg
    ensures l.bpg * (g + 1) == l.bpg * g + l.bpg
  {}

  lemma FreshIsFresh(l: Layout, descs: seq<Desc>, blocks: Pool, inodes: Pool)
    requires Sized(l) && Placed(l, descs, l.groupCount) && |descs| == l.groupCount
    requires |blocks.maps| == |inodes.maps| == l.groupCount
    requires blocks.per == l.bpg && blocks.total == l.blockCount && blocks.free == Sum(blocks.maps)
    requires inodes.per == l.ipg && inodes.total == l.groupCount * l.ipg == inodes.free
    requires forall g :: 0 <= g < l.groupCount ==> Meta(l, g) <= GroupLen(l, g) <= l.bpg &&
                                                   blocks.maps[g] == FreshMap(Meta(l, g), GroupLen(l, g), l.bpg)
    requires forall g :: 0 <= g < l.groupCount ==> inodes.maps[g] == FreshMap(0, l.ipg, 8 * l.bs)
    ensures Fresh(l, descs, blocks, inodes)
  {
    hide GroupLen, Counted, HintSound, Prefix, Sum, Meta, Placed, Apart, MetaSet, FreeSet, Range;
    forall g | 0 <= g < l.groupCount
      ensures Counted(blocks.maps[g]) && HintSound(blocks.maps[g])
      ensures Counted(inodes.maps[g]) && HintSound(inodes.maps[g])
    {
      FreshCounted(Meta(l, g), GroupLen(l, g), l.bpg);
      FreshCounted(0, l.ipg, 8 * l.bs);
    }
    SumOfFull(inodes.maps, l.ipg);
    LastInodes(l.groupCount, l.ipg);
    PartsApart(l, descs);
    FreshFree(l, descs, blocks);
    FreshInodes(l, inodes);
  }

  lemma LastInodes(n: nat, ipg: nat)
    requires n > 0
    ensures n * ipg == (n - 1) * ipg + ipg
  {}

  ghost predicate Between(a: nat, n: nat, b: nat) {
    a <= n < b
  }

  ghost function Range(a: nat, b: nat): set<nat> {
    set n | 0 <= n < b && Between(a, n, b)
  }

  /** After formatting, exactly the blocks that are not metadata are free. */
  lemma FreshFree(l: Layout, descs: seq<Desc>, blocks: Pool)
    requires Sized(l) && Placed(l, descs, l.groupCount) && |descs| == l.groupCount
    requires Consistent(blocks) && |blocks.maps| == l.groupCount && blocks.per == l.bpg && blocks.total == l.blockCount
    requires forall g :: 0 <= g < l.groupCount ==> blocks.maps[g].bits == Prefix(Meta(l, g), l.bpg)
    ensures FreeSet(blocks) == Range(0, l.blockCount) - MetaSet(l, descs)
  {
    hide Consistent, Meta, Sized, Placed, MetaSet;
    ConsistentSum(blocks);
    forall b | 0 <= b < l.blockCount ensures IsFree(blocks, b) <==> b !in MetaSet(l, descs) {
      Locate(blocks, b);
      var g, i := GroupOf(blocks, b), IndexOf(blocks, b);
      ConsistentFacts(blocks, g);
      MetaIsPrefix(l, descs, b, g, i);
    }
    assert MetaSet(l, descs) <= Range(0, l.blockCount) by { MetaBelow(l, descs); }
  }

  lemma MetaBelow(l: Layout, descs: seq<Desc>)
    ensures MetaSet(l, descs) <= Range(0, l.blockCount)
  {
    hide InPart;
  }

  lemma FreshInodes(l: Layout, inodes: Pool)
    requires Consistent(inodes) && |inodes.maps| == l.groupCount
    requires forall g :: 0 <= g < l.groupCount ==> inodes.maps[g].bits == Prefix(0, 8 * l.bs)
    ensures FreeSet(inodes) == Range(0, inodes.total)
  {
    hide Consistent, GroupOf, IndexOf, Num;
    ConsistentSum(inodes);
    forall n | 0 <= n < inodes.total ensures IsFree(inodes, n) {
      Locate(inodes, n);
      ConsistentFacts(inodes, GroupOf(inodes, n));
    }
  }

  /** The inode reserve loop of create_filesystem hands out 0, 1, 2, ... so its
      panic cannot happen. */
  method ReserveInodes(fs: Filesystem, l: Layout, ghost descs: seq<Desc>)
    requires Fresh(l, descs, fs.blocks, fs.inodes) && l.ipg >= RESERVED_INODES
    modifies fs`inodes
    ensures Consistent(fs.inodes) && HintsSound(fs.inodes) && HintsKnown(fs.inodes)
    ensures FreeSet(fs.inodes) == Range(RESERVED_INODES, fs.inodes.total) && SameShape(old(fs.inodes), fs.inodes)
  {
    hide Consistent, HintsSound, HintsKnown, Num, IsFree, FreeSet, Misleads, FindZero, Apart, MetaSet;
    GroupsNonempty(l, descs, fs.blocks, fs.inodes);
    var i := 0;
    while i < RESERVED_INODES
      invariant 0 <= i <= RESERVED_INODES
      invariant Consistent(fs.inodes) && HintsSound(fs.inodes) && HintsKnown(fs.inodes)
      invariant fs.inodes.per == l.ipg && SameShape(old(fs.inodes), fs.inodes) &&
                |fs.inodes.maps| == |fs.blocks.maps| > 0
      invariant 0 < fs.inodes.total == |fs.inodes.maps| * l.ipg && Consistent(fs.blocks)
      invariant FreeSet(fs.inodes) == Range(i, fs.inodes.total)
    {
      ghost var p := fs.inodes;
      FirstOfGroupZero(p, i);
      forall g: nat | g < |p.maps| ensures HintSound(p.maps[g]) { HintAt(p, g); }
      var ino, group, index := fs.NewInode(0, false);
      NextReserved(p, fs.inodes, group, index, i);
      if ino != Some(i) {
        assert false;
      }
      i := i + 1;
    }
  }

  lemma GroupsNonempty(l: Layout, descs: seq<Desc>, blocks: Pool, inodes: Pool)
    requires Fresh(l, descs, blocks, inodes)
    ensures |inodes.maps| > 0 && inodes.total > 0
  {
    ConsistentFacts(inodes, |inodes.maps| - 1);
    Numbered(inodes, |inodes.maps| - 1, 0);
  }

  /** Group 0 still has its inode i when exactly the inodes from i on are free. */
  lemma FirstOfGroupZero(p: Pool, i: nat)
    requires Consistent(p) && FreeSet(p) == Range(i, p.total) && i < RESERVED_INODES <= p.per
    requires p.total == |p.maps| * p.per && 0 < |p.maps|
    ensures p.free > 0 && p.maps[0].clear > 0 && p.per > 0 && GroupOf(p, 0) == 0
    ensures i < |p.maps[0].bits| && !p.maps[0].bits[i] && forall k :: 0 <= k < i ==> p.maps[0].bits[k]
  {
    hide Consistent, IsFree, Num, GroupOf, IndexOf;
    FirstGroupFull(p);
    ConsistentSum(p);
    ConsistentFacts(p, 0);
    forall k | 0 <= k <= i ensures p.maps[0].bits[k] == (k < i) {
      IsFreeAt(p, 0, k);
      Numbered(p, 0, k);
      NumZero(p, k);
      assert k in FreeSet(p) <==> IsFree(p, k);
      assert Between(i, k, p.total) <==> i <= k;
      assert k in Range(i, p.total) <==> i <= k;
    }
    assert !p.maps[0].bits[i];
    NumZero(p, 0);
    Numbered(p, 0, 0);
    ClearZero(p.maps[0].bits, p.maps[0].len);
    SomeFree(p);
  }

  lemma NumZero(p: Pool, k: nat)
    ensures Num(p, 0, k) == k
  {}

  lemma FirstGroupFull(p: Pool)
    requires Consistent(p) && p.total == |p.maps| * p.per
    ensures p.maps[0].len == p.per
  {
    LastInodes(|p.maps|, p.per);
  }

  lemma NextReserved(p: Pool, p': Pool, g: nat, index: nat, i: nat)
    requires Consistent(p) && p.per > 0 && NearestTo(p, GroupOf(p, 0), g) && LowestTaken(p, p', g, index)
    requires p.maps[0].clear > 0 && GroupOf(p, 0) == 0 && FreeSet(p) == Range(i, p.total) && i < p.total
    requires i < |p.maps[0].bits| && !p.maps[0].bits[i] && forall k :: 0 <= k < i ==> p.maps[0].bits[k]
    ensures Num(p, g, index) == i && FreeSet(p') == Range(i + 1, p.total)
  {
    hide Consistent, IsFree, GroupOf;
    NumZero(p, index);
    assert index == i;
  }

  /** create_filesystem as far as allocation goes. */
  method CreateFilesystem(bs: nat, blockCount: nat, ratio: nat) returns (fs: Filesystem, descs: seq<Desc>)
    requires Usable(bs, blockCount, ratio)
    ensures fresh(fs)
    ensures Fits(MakeLayout(bs, blockCount, ratio), ratio)
    ensures exists inodes ::
              Fresh(MakeLayout(bs, blockCount, ratio), descs, fs.blocks, inodes) && SameShape(inodes, fs.inodes)
    ensures Healthy(fs.inodes) && FreeSet(fs.inodes) == Range(RESERVED_INODES, fs.inodes.total)
  {
    hide Fresh, Formattable, Usable, MakeLayout, Fits, TailDropped;
    InUsable(bs, blockCount, ratio);
    var blocks, inodes;
    descs, blocks, inodes := BuildGroups(bs, blockCount, ratio);
    ghost var l := MakeLayout(bs, blockCount, ratio);
    assert l.(blockCount := blockCount) == l && blocks.(total := blockCount, free := blocks.free) == blocks;
    fs := new Filesystem(blocks, inodes);
    ReserveInodes(fs, MakeLayout(bs, blockCount, ratio), descs);
    assert Fresh(l, descs, fs.blocks, inodes);
  }

  function InodeGroup(l: Layout, ino: nat): nat
    requires 0 < l.ipg
  {
    Quotient(ino, l.ipg)
  }

  /** Where get_inode finds an inode: the block in its group's table, and the slot. */
  function InodeBlock(l: Layout, descs: seq<Desc>, ino: nat): nat
    requires l.bs >= INODE_SIZE && 0 < l.ipg && InodeGroup(l, ino) < |descs|
  {
    descs[InodeGroup(l, ino)].inodeTable + Quotient(Rest(ino, l.ipg), l.bs / INODE_SIZE)
  }

  function InodeSlot(l: Layout, ino: nat): nat
    requires l.bs >= INODE_SIZE
  {
    Rest(ino, l.bs / INODE_SIZE)
  }

  lemma ItemFits(k: nat, n: nat, size: nat, blocks: nat, bs: nat)
    requires size > 0 && bs > 0 && bs % size == 0 && k < n && n * size <= blocks * bs
    ensures bs / size > 0 && Quotient(k, bs / size) < blocks && Rest(k, bs / size) * size + size <= bs
  {
    var per := bs / size;
    assert bs == per * size;
    assert blocks * bs == blocks * per * size;
    if blocks * per < n { MulLess(blocks * per, n, size); }
    DivFacts(k, per);
    if k / per >= blocks { MulLess(blocks, k / per + 1, per); }
    SlotFits(k, size, bs);
  }

  lemma SlotFits(k: nat, size: nat, bs: nat)
    requires size > 0 && bs > 0 && bs % size == 0
    ensures bs / size > 0 && Rest(k, bs / size) * size + size <= bs
  {
    var per := bs / size;
    assert bs == per * size;
    DivFacts(k, per);
    MulLess(k % per, per, size);
  }

  /** The slot is counted from inode 0 and the block from the group's first inode,
      but within a block the slots are still different. */
  lemma SameSlot(a: nat, b: nat, ipg: nat, per: nat)
    requires ipg > 0 && per > 0 && Quotient(a, ipg) == Quotient(b, ipg) && Rest(a, per) == Rest(b, per)
    requires Quotient(Rest(a, ipg), per) == Quotient(Rest(b, ipg), per)
    ensures a == b
  {
    hide Quotient, Rest;
    Divided(a, ipg);
    Divided(b, ipg);
    Divided(Rest(a, ipg), per);
    Divided(Rest(b, ipg), per);
    Divided(a, per);
    Divided(b, per);
    NearbyMultiples(Quotient(a, per), Quotient(b, per), per, a, b, Rest(a, per));
  }

  lemma Divided(a: nat, b: nat)
    requires b > 0
    ensures a == Quotient(a, b) * b + Rest(a, b) && Rest(a, b) < b
  {
    DivFacts(a, b);
  }

  lemma NearbyMultiples(p: nat, q: nat, per: nat, a: nat, b: nat, r: nat)
    requires a == p * per + r && b == q * per + r && a < b + per && b < a + per
    ensures a == b
  {
    if p < q { MulLess(p, q, per); }
    if q < p { MulLess(q, p, per); }
  }

  /** On a formatted volume every inode has its place in the table of its group ... */
  lemma InodePlace(l: Layout, descs: seq<Desc>, ratio: nat, ino: nat)
    requires Fits(l, ratio) && Apart(l, descs) && l.bs % INODE_SIZE == 0 && 0 < l.ipg && ino < l.groupCount * l.ipg
    ensures l.bs >= INODE_SIZE && InodeGroup(l, ino) < |descs| == l.groupCount
    ensures InPart(l, descs, InodeTable(InodeGroup(l, ino)), InodeBlock(l, descs, ino))
    ensures InodeSlot(l, ino) * INODE_SIZE + INODE_SIZE <= l.bs
  {
    hide Apart, Fits, Quotient, Rest;
    DescCount(l, descs);
    FitsInodes(l, ratio);
    GroupBelow(ino, l.groupCount, l.ipg);
    ItemFits(Rest(ino, l.ipg), l.ipg, INODE_SIZE, l.inodeBlocks, l.bs);
    SlotFits(ino, INODE_SIZE, l.bs);
  }

  lemma FitsInodes(l: Layout, ratio: nat)
    requires Fits(l, ratio)
    ensures l.bs > 0 && l.ipg * INODE_SIZE <= l.inodeBlocks * l.bs
  {}

  lemma GroupBelow(n: nat, groups: nat, per: nat)
    requires per > 0 && n < groups * per
    ensures Quotient(n, per) < groups && Rest(n, per) < per
  {
    DivFacts(n, per);
  }

  /** ... and no two have the same. */
  lemma InodePlacesDiffer(l: Layout, descs: seq<Desc>, ratio: nat, ino: nat, other: nat)
    requires Fits(l, ratio) && Apart(l, descs) && l.bs % INODE_SIZE == 0 && 0 < l.ipg && l.bs >= INODE_SIZE
    requires ino < l.groupCount * l.ipg && other < l.groupCount * l.ipg
    requires InodeGroup(l, ino) < |descs| && InodeGroup(l, other) < |descs|
    requires InodeBlock(l, descs, ino) == InodeBlock(l, descs, other) && InodeSlot(l, ino) == InodeSlot(l, other)
    ensures ino == other
  {
    hide Apart, Fits, Quotient, Rest;
    InodePlace(l, descs, ratio, ino);
    InodePlace(l, descs, ratio, other);
    ApartInodes(l, descs, InodeGroup(l, ino), InodeGroup(l, other), InodeBlock(l, descs, ino));
    SameSlot(ino, other, l.ipg, l.bs / INODE_SIZE);
  }

  lemma ApartInodes(l: Layout, descs: seq<Desc>, g: nat, h: nat, b: nat)
    requires Apart(l, descs) && InPart(l, descs, InodeTable(g), b) && InPart(l, descs, InodeTable(h), b)
    ensures g == h
  {
    assert InodeTable(g) == InodeTable(h);
  }

  lemma DescCount(l: Layout, descs: seq<Desc>)
    requires Apart(l, descs)
    ensures |descs| == l.groupCount
  {}

  /** Every group descriptor has its place in the descriptor table. */
  lemma DescPlaces(l: Layout, descs: seq<Desc>, ratio: nat, g: nat)
    requires Fits(l, ratio) && |descs| == l.groupCount && l.bs % GROUPDESC_SIZE == 0 && g < l.groupCount
    ensures l.bs >= GROUPDESC_SIZE
    ensures InPart(l, descs, DescTable, l.descTable + Quotient(g, l.bs / GROUPDESC_SIZE))
    ensures Rest(g, l.bs / GROUPDESC_SIZE) * GROUPDESC_SIZE + GROUPDESC_SIZE <= l.bs
  {
    ItemFits(g, l.groupCount, GROUPDESC_SIZE, l.descBlocks, l.bs);
  }

  /** A formatted volume is aligned exactly if its size is. */
  lemma FreshAligned(l: Layout, descs: seq<Desc>, blocks: Pool, inodes: Pool)
    requires Fresh(l, descs, blocks, inodes) && l.bpg % 32 == 0
    ensures Aligned(blocks) <==> l.blockCount % 32 == 0
    ensures Aligned(inodes) <==> l.ipg % 32 == 0
  {
    hide Counted, Sum, HintsSound, HintsKnown, Apart, FreeSet, MetaSet;
    var last := |blocks.maps| - 1;
    WholeGroups(last, l.bpg, blocks.maps[last].len);
  }

  lemma WholeGroups(n: nat, per: nat, len: nat)
    requires per % 32 == 0
    ensures (n * per + len) % 32 == len % 32
  {
    var k := per / 32;
    assert n * per == 32 * (n * k) by { assert per == 32 * k; }
  }

  // ------------------------------------------------- every run from formatting

  /** What a client of the allocator may ask for; Mount is closing the volume and
      mounting it again. */
  datatype Request =
    Alloc(goal: nat) | Release(list: seq<nat>) | NewIno(parent: nat, dir: bool) | FreeIno(ino: nat) | Mount

  /** The two pools together with the blocks and inodes clients hold. */
  datatype Snapshot = Snapshot(blocks: Pool, inodes: Pool, held: set<nat>, files: set<nat>)

  /** a, b and c are disjoint and make up 0..n-1. */
  ghost predicate Split(a: set<nat>, b: set<nat>, c: set<nat>, n: nat) {
    a !! b !! c && a + b + c == Below(n)
  }

  /** A pool with right counts in which no search can be misled, whatever its
      hints are. */
  ghost predicate Sound(p: Pool) {
    Consistent(p) && Aligned(p)
  }

  /** Every block is metadata, held or free, every inode is reserved, held or
      free, and all counts are right. */
  ghost predicate Safe(meta: set<nat>, s: Snapshot) {
    && Sound(s.blocks) && Sound(s.inodes)
    && |s.blocks.maps| == |s.inodes.maps|
    && Split(meta, s.held, FreeSet(s.blocks), s.blocks.total)
    && Split(Below(RESERVED_INODES), s.files, FreeSet(s.inodes), s.inodes.total)
  }

  lemma CountParts(a: set<nat>, b: set<nat>, c: set<nat>, n: nat)
    requires Split(a, b, c, n)
    ensures |a| + |b| + |c| == n
  {
    assert |a + b| == |a| + |b|;
    assert |a + b + c| == |a + b| + |c|;
  }

  /** The super block's two counts, from what is held. */
  lemma SafeCounts(meta: set<nat>, s: Snapshot)
    requires Safe(meta, s)
    ensures s.blocks.free == s.blocks.total - |meta| - |s.held|
    ensures s.inodes.free == s.inodes.total - RESERVED_INODES - |s.files|
  {
    hide FreeSet, Consistent, Split;
    FreeCount(s.blocks);
    FreeCount(s.inodes);
    CountParts(meta, s.held, FreeSet(s.blocks), s.blocks.total);
    CountParts(Below(RESERVED_INODES), s.files, FreeSet(s.inodes), s.inodes.total);
  }

  /** A client gives back only blocks it holds, each once. */
  predicate Legal(list: seq<nat>, held: set<nat>) {
    && (forall i :: 0 <= i < |list| ==> list[i] in held)
    && (forall i, j :: 0 <= i < j < |list| ==> list[i] != list[j])
  }

  /** One answered request: an allocation hands out one free number or fails, with
      sound hints exactly if nothing is free; nothing else moves. Allocating keeps
      hints sound, and a mount makes them so. */
  ghost predicate Answers(s: Snapshot, req: Request, reply: Option<nat>, s': Snapshot) {
    match req
    case Alloc(goal) =>
      && s'.inodes == s.inodes && s'.files == s.files && HintsKept(s.blocks, s'.blocks)
      && (reply.None? <==> NothingChosen(s.blocks, goal)) && (reply.None? ==> s' == s)
      && (FreeSet(s.blocks) == {} ==> reply.None?)
      && (HintsSound(s.blocks) && reply.None? ==> FreeSet(s.blocks) == {})
      && (reply.Some? ==> reply.value in FreeSet(s.blocks) && s'.held == s.held + {reply.value}
                          && FreeSet(s'.blocks) == FreeSet(s.blocks) - {reply.value})
      && (goal in FreeSet(s.blocks) ==> reply == Some(goal))
    case Release(list) =>
      && s'.inodes == s.inodes && s'.files == s.files && reply.None? && HealthKept(s.blocks, s'.blocks)
      && (Legal(list, s.held) ==>
            s'.held == s.held - Elements(list) && FreeSet(s'.blocks) == FreeSet(s.blocks) + Elements(list))
      && (!Legal(list, s.held) ==> s' == s)
    case NewIno(parent, dir) =>
      && s'.blocks == s.blocks && s'.held == s.held && HintsKept(s.inodes, s'.inodes)
      && (FreeSet(s.inodes) == {} || parent >= s.inodes.total ==> reply.None?)
      && (HintsSound(s.inodes) && reply.None? ==> FreeSet(s.inodes) == {} || parent >= s.inodes.total)
      && (reply.None? ==> s'.files == s.files && FreeSet(s'.inodes) == FreeSet(s.inodes))
      && (reply.Some? ==> reply.value in FreeSet(s.inodes) && s'.files == s.files + {reply.value}
                          && FreeSet(s'.inodes) == FreeSet(s.inodes) - {reply.value})
    case FreeIno(ino) =>
      && s'.blocks == s.blocks && s'.held == s.held && reply.None? && HealthKept(s.inodes, s'.inodes)
      && (ino in s.files ==> s'.files == s.files - {ino} && FreeSet(s'.inodes) == FreeSet(s.inodes) + {ino})
      && (ino !in s.files ==> s' == s)
    case Mount =>
      && s'.held == s.held && s'.files == s.files && reply.None?
      && FreeSet(s'.blocks) == FreeSet(s.blocks) && FreeSet(s'.inodes) == FreeSet(s.inodes)
      && HintsSound(s'.blocks) && HintsSound(s'.inodes)
  }

  lemma SplitTake(a: set<nat>, b: set<nat>, c: set<nat>, n: nat, x: nat)
    requires Split(a, b, c, n) && x in c
    ensures Split(a, b + {x}, c - {x}, n)
  {}

  lemma SplitGive(a: set<nat>, b: set<nat>, c: set<nat>, n: nat, x: set<nat>)
    requires Split(a, b, c, n) && x <= b
    ensures Split(a, b - x, c + x, n)
  {}

  method ServeAlloc(fs: Filesystem, goal: nat, ghost meta: set<nat>, ghost held: set<nat>) returns (reply: Option<nat>)
    requires Sound(fs.blocks) && Split(meta, held, FreeSet(fs.blocks), fs.blocks.total)
    modifies fs`blocks
    ensures Sound(fs.blocks) && SameShape(old(fs.blocks), fs.blocks) && HintsKept(old(fs.blocks), fs.blocks)
    ensures (reply.None? <==> NothingChosen(old(fs.blocks), goal)) && (reply.None? ==> fs.blocks == old(fs.blocks))
    ensures HintsSound(old(fs.blocks)) && reply.None? ==> FreeSet(old(fs.blocks)) == {}
    ensures reply.Some? ==> reply.value in FreeSet(old(fs.blocks))
                            && FreeSet(fs.blocks) == FreeSet(old(fs.blocks)) - {reply.value}
                            && Split(meta, held + {reply.value}, FreeSet(fs.blocks), fs.blocks.total)
    ensures goal in FreeSet(old(fs.blocks)) ==> reply == Some(goal)
  {
    hide Consistent, HintsSound, HintsKnown, FreeSet, Misled, GoalMisled, Chosen, NothingChosen, Aligned, Split,
         SameShape;
    AlignedNeverMisled(fs.blocks, goal);
    ghost var g, i;
    reply, g, i := fs.NewBlock(goal);
    StillAligned(old(fs.blocks), fs.blocks);
    if reply.Some? { SplitTake(meta, held, FreeSet(old(fs.blocks)), fs.blocks.total, reply.value); }
  }

  method ServeInode(fs: Filesystem, parent: nat, dir: bool, ghost files: set<nat>) returns (reply: Option<nat>)
    requires Sound(fs.inodes) && Consistent(fs.blocks) && |fs.blocks.maps| == |fs.inodes.maps| &&
             parent < fs.inodes.total
    requires Split(Below(RESERVED_INODES), files, FreeSet(fs.inodes), fs.inodes.total)
    modifies fs`inodes
    ensures Sound(fs.inodes) && SameShape(old(fs.inodes), fs.inodes) && HintsKept(old(fs.inodes), fs.inodes)
    ensures HintsSound(old(fs.inodes)) && reply.None? ==> FreeSet(old(fs.inodes)) == {}
    ensures reply.None? ==> FreeSet(fs.inodes) == FreeSet(old(fs.inodes))
    ensures reply.Some? ==> reply.value in FreeSet(old(fs.inodes))
                            && FreeSet(fs.inodes) == FreeSet(old(fs.inodes)) - {reply.value}
                            && Split(Below(RESERVED_INODES), files + {reply.value}, FreeSet(fs.inodes), fs.inodes.total)
  {
    hide Consistent, HintsSound, HintsKnown, FreeSet, LowestTaken, BestForDirectory, NearestTo, Aligned, Misleads,
         HintSound, Split, SameShape, FindZero, Below;
    ghost var g, i;
    SomeFree(fs.inodes);
    reply, g, i := fs.NewInode(parent, dir);
    InodeAnswer(old(fs.inodes), g);
    StillAligned(old(fs.inodes), fs.inodes);
    if reply.Some? { SplitTake(Below(RESERVED_INODES), files, FreeSet(old(fs.inodes)), fs.inodes.total, reply.value); }
  }

  method ServeMount(fs: Filesystem)
    requires Sound(fs.blocks) && Sound(fs.inodes) && |fs.blocks.maps| == |fs.inodes.maps|
    modifies fs
    ensures Sound(fs.blocks) && HintsSound(fs.blocks) && FreeSet(fs.blocks) == FreeSet(old(fs.blocks))
    ensures Sound(fs.inodes) && HintsSound(fs.inodes) && FreeSet(fs.inodes) == FreeSet(old(fs.inodes))
    ensures SameShape(old(fs.blocks), fs.blocks) && SameShape(old(fs.inodes), fs.inodes)
  {
    hide Consistent, HintsSound, FreeSet;
    MountedSound(fs.blocks);
    MountedSound(fs.inodes);
    fs.Mount();
  }

  /** One request on the real methods. */
  method Serve(fs: Filesystem, req: Request, held: set<nat>, files: set<nat>, ghost meta: set<nat>)
    returns (reply: Option<nat>, held': set<nat>, files': set<nat>)
    requires Safe(meta, Snapshot(fs.blocks, fs.inodes, held, files))
    modifies fs
    ensures Safe(meta, Snapshot(fs.blocks, fs.inodes, held', files'))
    ensures Answers(old(Snapshot(fs.blocks, fs.inodes, held, files)), req, reply,
                    Snapshot(fs.blocks, fs.inodes, held', files'))
  {
    hide Consistent, HintsSound, HintsKnown, FreeSet, Aligned, Below, SameShape, Split, Legal, NothingChosen;
    reply, held', files' := None, held, files;
    match req {
      case Alloc(goal) =>
        reply := ServeAlloc(fs, goal, meta, held);
        StillAligned(old(fs.blocks), fs.blocks);
        if reply.Some? { held' := held + {reply.value}; }
      case Release(list) =>
        if Legal(list, held) {
          HeldInUse(fs.blocks, meta, held, list);
          SplitGive(meta, held, FreeSet(fs.blocks), fs.blocks.total, Elements(list));
          fs.FreeBlocks(list);
          StillAligned(old(fs.blocks), fs.blocks);
          held' := held - Elements(list);
        }
      case NewIno(parent, dir) =>
        if parent < fs.inodes.total {
          reply := ServeInode(fs, parent, dir, files);
          StillAligned(old(fs.inodes), fs.inodes);
          if reply.Some? { files' := files + {reply.value}; }
        }
      case FreeIno(ino) =>
        if ino in files {
          InUse(Below(RESERVED_INODES), files, FreeSet(fs.inodes), fs.inodes.total, ino);
          SplitGive(Below(RESERVED_INODES), files, FreeSet(fs.inodes), fs.inodes.total, {ino});
          fs.FreeInode(ino);
          StillAligned(old(fs.inodes), fs.inodes);
          files' := files - {ino};
        }
      case Mount =>
        ServeMount(fs);
        StillAligned(old(fs.blocks), fs.blocks);
        StillAligned(old(fs.inodes), fs.inodes);
    }
  }

  lemma InUse(a: set<nat>, b: set<nat>, c: set<nat>, n: nat, x: nat)
    requires Split(a, b, c, n) && x in b
    ensures x < n && x !in c
  {
    assert x in Below(n);
  }

  lemma StillAligned(p: Pool, p': Pool)
    requires Aligned(p) && SameShape(p, p')
    ensures Aligned(p') && p'.total == p.total && |p'.maps| == |p.maps|
  {}

  lemma HeldInUse(p: Pool, meta: set<nat>, held: set<nat>, list: seq<nat>)
    requires Split(meta, held, FreeSet(p), p.total) && Legal(list, held)
    ensures forall i :: 0 <= i < |list| ==> list[i] < p.total && list[i] !in FreeSet(p)
    ensures forall i, j :: 0 <= i < j < |list| ==> list[i] != list[j]
    ensures Elements(list) <= held
  {
    hide FreeSet;
    forall i | 0 <= i < |list| ensures list[i] < p.total && list[i] !in FreeSet(p) {
      InUse(meta, held, FreeSet(p), p.total, list[i]);
    }
  }

  /** On an aligned inode pool the search is never misled. */
  lemma InodeAnswer(p: Pool, g: nat)
    requires Consistent(p) && Aligned(p) && g < |p.maps|
    ensures HintsSound(p) ==> HintSound(p.maps[g])
    ensures p.maps[g].len <= |p.maps[g].bits| && p.maps[g].len % 32 == 0
    ensures !Misleads(p.maps[g].bits, p.maps[g].len, SearchStart(p.maps[g]))
  {
    ConsistentFacts(p, g);
  }

  /** All requests in turn, with the state before and after each. */
  method ServeAll(fs: Filesystem, reqs: seq<Request>, ghost meta: set<nat>)
    returns (replies: seq<Option<nat>>, ghost trace: seq<Snapshot>)
    requires Safe(meta, Snapshot(fs.blocks, fs.inodes, {}, {}))
    modifies fs
    ensures |replies| == |reqs| && |trace| == |reqs| + 1 && trace[0] == old(Snapshot(fs.blocks, fs.inodes, {}, {}))
    ensures forall i :: 0 <= i < |trace| ==> Safe(meta, trace[i])
    ensures forall i :: 0 <= i < |reqs| ==> Answers(trace[i], reqs[i], replies[i], trace[i + 1])
  {
    hide Safe, Answers;
    var held: set<nat>, files: set<nat> := {}, {};
    replies := [];
    trace := [Snapshot(fs.blocks, fs.inodes, held, files)];
    for i := 0 to |reqs|
      invariant |replies| == i && |trace| == i + 1 && trace[0] == old(Snapshot(fs.blocks, fs.inodes, {}, {}))
      invariant trace[i] == Snapshot(fs.blocks, fs.inodes, held, files)
      invariant forall k :: 0 <= k <= i ==> Safe(meta, trace[k])
      invariant forall k :: 0 <= k < i ==> Answers(trace[k], reqs[k], replies[k], trace[k + 1])
    {
      var reply;
      reply, held, files := Serve(fs, reqs[i], held, files, meta);
      replies := replies + [reply];
      trace := trace + [Snapshot(fs.blocks, fs.inodes, held, files)];
    }
  }

  /** No mount among the first i requests. */
  predicate Unmounted(reqs: seq<Request>, i: nat)
    requires i <= |reqs|
  {
    forall k :: 0 <= k < i ==> !reqs[k].Mount?
  }

  /** The hints before request i are sound: nothing was given back since the last
      mount, or there was no mount since formatting. */
  predicate Led(reqs: seq<Request>, i: nat)
    requires i <= |reqs|
  {
    Unmounted(reqs, i) ||
    (i > 0 && (reqs[i - 1].Mount? || (!reqs[i - 1].Release? && !reqs[i - 1].FreeIno? && Led(reqs, i - 1))))
  }

  ghost predicate Chained(trace: seq<Snapshot>, reqs: seq<Request>, replies: seq<Option<nat>>) {
    && |replies| == |reqs| && |trace| == |reqs| + 1
    && forall i :: 0 <= i < |reqs| ==> Answers(trace[i], reqs[i], replies[i], trace[i + 1])
  }

  lemma {:induction false} KnownUntilMount(trace: seq<Snapshot>, reqs: seq<Request>, replies: seq<Option<nat>>, i: nat)
    requires Chained(trace, reqs, replies) && i <= |reqs| && Unmounted(reqs, i)
    requires HintsSound(trace[0].blocks) && HintsKnown(trace[0].blocks)
    requires HintsSound(trace[0].inodes) && HintsKnown(trace[0].inodes)
    ensures HintsSound(trace[i].blocks) && HintsKnown(trace[i].blocks)
    ensures HintsSound(trace[i].inodes) && HintsKnown(trace[i].inodes)
    decreases i
  {
    hide HintsSound, HintsKnown, Aligned, FreeSet, NothingChosen, Legal;
    if i > 0 {
      KnownUntilMount(trace, reqs, replies, i - 1);
      assert Answers(trace[i - 1], reqs[i - 1], replies[i - 1], trace[i]);
    }
  }

  lemma {:induction false} LedIsSound(trace: seq<Snapshot>, reqs: seq<Request>, replies: seq<Option<nat>>, i: nat)
    requires Chained(trace, reqs, replies) && i <= |reqs| && Led(reqs, i)
    requires HintsSound(trace[0].blocks) && HintsKnown(trace[0].blocks)
    requires HintsSound(trace[0].inodes) && HintsKnown(trace[0].inodes)
    ensures HintsSound(trace[i].blocks) && HintsSound(trace[i].inodes)
    decreases i
  {
    hide HintsSound, HintsKnown, Aligned, FreeSet, NothingChosen, Legal, Unmounted;
    if Unmounted(reqs, i) {
      KnownUntilMount(trace, reqs, replies, i);
    } else {
      assert Answers(trace[i - 1], reqs[i - 1], replies[i - 1], trace[i]);
      if !reqs[i - 1].Mount? { LedIsSound(trace, reqs, replies, i - 1); }
    }
  }

  /** A request for a block or an inode was refused exactly if none was free. */
  ghost predicate RefusedIfFull(s: Snapshot, req: Request, reply: Option<nat>) {
    match req
    case Alloc(_) => reply.None? <==> FreeSet(s.blocks) == {}
    case NewIno(parent, _) => reply.None? <==> FreeSet(s.inodes) == {} || parent >= s.inodes.total
    case _ => true
  }

  /** Every run from formatting, of any requests and mounts in any order, on a
      volume whose block and inode counts per group are whole bitmap words: no
      metadata and nothing held is ever handed out, all counts are exact
      throughout, and an allocation fails exactly if nothing is free, until
      something is given back after a mount, and again from the next mount on. */
  method FormatAndServe(bs: nat, blockCount: nat, ratio: nat, reqs: seq<Request>)
    returns (replies: seq<Option<nat>>, descs: seq<Desc>, ghost trace: seq<Snapshot>, ghost meta: set<nat>)
    requires Usable(bs, blockCount, ratio) && bs % 4 == 0 && blockCount % 32 == 0
    requires MakeLayout(bs, blockCount, ratio).ipg % 32 == 0
    ensures |replies| == |reqs| && |trace| == |reqs| + 1
    ensures trace[0].blocks.per == 8 * bs && trace[0].blocks.total == blockCount && trace[0].held == {} &&
            trace[0].files == {}
    ensures var l := MakeLayout(bs, blockCount, ratio); Fits(l, ratio) && Apart(l, descs) && meta == MetaSet(l, descs)
    ensures forall i :: 0 <= i < |trace| ==> Safe(meta, trace[i])
    ensures forall i :: 0 <= i < |reqs| ==> Answers(trace[i], reqs[i], replies[i], trace[i + 1])
    ensures forall i :: 0 <= i < |reqs| && Led(reqs, i) ==> RefusedIfFull(trace[i], reqs[i], replies[i])
  {
    hide Usable, Safe, Answers, MakeLayout, MetaSet, FreeSet, Consistent, HintsSound, HintsKnown, Fresh, SameShape,
         Range, Led, RefusedIfFull, Fits, Apart;
    InUsable(bs, blockCount, ratio);
    WholeWords(bs, blockCount, ratio);
    var fs;
    fs, descs := CreateFilesystem(bs, blockCount, ratio);
    FormattedSafe(MakeLayout(bs, blockCount, ratio), descs, fs.blocks, fs.inodes);
    meta := MetaSet(MakeLayout(bs, blockCount, ratio), descs);
    replies, trace := ServeAll(fs, reqs, meta);
    forall i | 0 <= i < |reqs| && Led(reqs, i) ensures RefusedIfFull(trace[i], reqs[i], replies[i]) {
      LedIsSound(trace, reqs, replies, i);
      SoundRefusal(trace[i], reqs[i], replies[i], trace[i + 1]);
    }
  }

  lemma SoundRefusal(s: Snapshot, req: Request, reply: Option<nat>, s': Snapshot)
    requires Answers(s, req, reply, s') && HintsSound(s.blocks) && HintsSound(s.inodes)
    ensures RefusedIfFull(s, req, reply)
  {
    hide HintsSound, HintsKnown, Aligned, FreeSet, NothingChosen, Legal;
  }

  lemma WholeWords(bs: nat, blockCount: nat, ratio: nat)
    requires Usable(bs, blockCount, ratio) && bs % 4 == 0
    ensures var l := MakeLayout(bs, blockCount, ratio);
            l.bpg == 8 * bs && l.bpg % 32 == 0 && l.blockCount == blockCount && l.ipg >= RESERVED_INODES
  {
    hide MakeLayout, Usable, Formattable, CeilDiv;
    InUsable(bs, blockCount, ratio);
    Coverage(bs, blockCount, ratio);
    EightTimes(bs);
  }

  lemma EightTimes(bs: nat)
    requires bs % 4 == 0
    ensures 8 * bs % 32 == 0
  {}

  lemma FormattedSafe(l: Layout, descs: seq<Desc>, blocks: Pool, inodes: Pool)
    requires exists first :: Fresh(l, descs, blocks, first) && SameShape(first, inodes)
    requires l.bpg % 32 == 0 && l.blockCount % 32 == 0 && l.ipg % 32 == 0 && l.ipg >= RESERVED_INODES
    requires Healthy(inodes) && FreeSet(inodes) == Range(RESERVED_INODES, inodes.total)
    ensures blocks.per > 0 && blocks.per == l.bpg && blocks.total == l.blockCount && Apart(l, descs)
    ensures Safe(MetaSet(l, descs), Snapshot(blocks, inodes, {}, {}))
    ensures HintsSound(blocks) && HintsKnown(blocks) && HintsSound(inodes) && HintsKnown(inodes)
  {
    hide Consistent, HintsSound, HintsKnown, FreeSet, Split, MetaSet, Aligned, SameShape, Apart;
    var first :| Fresh(l, descs, blocks, first) && SameShape(first, inodes);
    FreshAligned(l, descs, blocks, first);
    StillAligned(first, inodes);
    TotalAtLeast(first, l);
    ConsistentSum(blocks);
    MetaSplit(l, descs, blocks);
    ReservedSplit(inodes.total, FreeSet(inodes));
  }

  lemma MetaSplit(l: Layout, descs: seq<Desc>, p: Pool)
    requires p.total == l.blockCount && FreeSet(p) == Range(0, l.blockCount) - MetaSet(l, descs)
    ensures Split(MetaSet(l, descs), {}, FreeSet(p), p.total)
  {
    hide FreeSet, Below, InPart, MetaSet;
    assert Range(0, l.blockCount) == Below(l.blockCount);
    MetaBelow(l, descs);
  }

  lemma ReservedSplit(n: nat, free: set<nat>)
    requires n >= RESERVED_INODES && free == Range(RESERVED_INODES, n)
    ensures Split(Below(RESERVED_INODES), {}, free, n)
  {
    hide Below;
    forall x: nat ensures x in Below(n) <==> x in Below(RESERVED_INODES) || x in free {
      assert Between(RESERVED_INODES, x, n) <==> RESERVED_INODES <= x < n;
    }
  }

  lemma TotalAtLeast(p: Pool, l: Layout)
    requires Consistent(p) && p.total == |p.maps| * l.ipg
    ensures p.total >= l.ipg
  {
    assert (|p.maps| - 1) * l.ipg >= 0;
    assert |p.maps| * l.ipg == (|p.maps| - 1) * l.ipg + l.ipg;
  }
}
