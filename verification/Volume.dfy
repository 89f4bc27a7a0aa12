/** A freshly formatted volume is one the block directory code can work on. */
module FormattedVolume {
  import opened Arith
  import opened PointerPage
  import opened BlockTree
  import opened BlockDirectory
  import opened Format
  import Allocator

  /** The block size for pages of 2^log pointers. */
  function BlockSize(log: nat): (bs: nat)
    ensures bs % 4 == 0
  {
    4 * Pow(2, log)
  }

  /** dfs_format and then dfs_mount: the volume is one the block directory code can
      work on, exactly the blocks that are not metadata are free and no hint skips
      one. If the block count is a whole number of bitmap words, no search for a
      free block is ever misled. */
  method FormatVolume(log: nat, blockCount: nat, ratio: nat, store: map<nat, Block>)
    returns (vol: Volume, descs: seq<Desc>)
    requires Usable(BlockSize(log), blockCount, ratio) && blockCount <= WORD
    requires forall b :: b in store <==> 0 <= b < blockCount
    requires forall b :: b in store ==> |store[b]| == BlockSize(log)
    ensures vol.Valid() && vol.logPtrs == log && vol.blockCount == blockCount && vol.store == store
    ensures vol.IsSteady() <==> blockCount % 32 == 0
    ensures Allocator.HintsSound(vol.fs.blocks)
    ensures BlockSize(log) > 0 && ratio > 0
    ensures var l := MakeLayout(BlockSize(log), blockCount, ratio);
            Fits(l, ratio) && Apart(l, descs) && vol.free == Range(0, blockCount) - MetaSet(l, descs)
  {
    hide Usable, Formattable, TailDropped, MakeLayout, MetaSet, Fresh, Pow, Fits, Apart, Allocator.Consistent,
         Allocator.FreeSet, Allocator.Aligned, Range, Allocator.HintsSound, Allocator.Mounted, Allocator.Healthy;
    var bs := BlockSize(log);
    InUsable(bs, blockCount, ratio);
    WholeWords(bs, blockCount, ratio);
    BigPages(log, blockCount, ratio);
    var fs;
    fs, descs := CreateFilesystem(bs, blockCount, ratio);
    FreshVolume(MakeLayout(bs, blockCount, ratio), descs, fs.blocks, fs.inodes);
    fs.Mount();
    vol := new Volume(log, blockCount, fs, store);
  }

  lemma FreshVolume(l: Layout, descs: seq<Desc>, blocks: Allocator.Pool, inodes: Allocator.Pool)
    requires exists first :: Fresh(l, descs, blocks, first) && Allocator.SameShape(first, inodes)
    requires l.bpg % 32 == 0 && l.firstReserved > 0
    ensures |blocks.maps| == |inodes.maps| && Apart(l, descs)
    ensures var p := Allocator.Mounted(blocks);
            && Linked(p, Allocator.FreeSet(p), l.blockCount) && Allocator.HintsSound(p)
            && (Allocator.Aligned(p) <==> l.blockCount % 32 == 0)
            && Allocator.FreeSet(p) == Range(0, l.blockCount) - MetaSet(l, descs)
            && (forall b :: b in Allocator.FreeSet(p) ==> 0 < b < l.blockCount)
  {
    hide Allocator.Consistent, Allocator.FreeSet, Allocator.HintsSound, MetaSet, Apart;
    var first :| Fresh(l, descs, blocks, first) && Allocator.SameShape(first, inodes);
    FreshAligned(l, descs, blocks, first);
    Allocator.MountedSound(blocks);
    MountedShape(blocks);
    DescCount(l, descs);
    ZeroIsMeta(l, descs);
  }

  lemma MountedShape(p: Allocator.Pool)
    ensures var p' := Allocator.Mounted(p);
            p'.per == p.per && p'.total == p.total && (Allocator.Aligned(p') <==> Allocator.Aligned(p))
  {}

  /** Block 0 is before the first reserved block. */
  lemma ZeroIsMeta(l: Layout, descs: seq<Desc>)
    requires |descs| == l.groupCount && l.firstReserved > 0
    ensures 0 in MetaSet(l, descs) || l.blockCount == 0
  {
    assert InPart(l, descs, SuperBlock, 0);
  }

  lemma BigPages(log: nat, blockCount: nat, ratio: nat)
    requires Usable(BlockSize(log), blockCount, ratio)
    ensures Pow(2, log) >= ROOTS && MakeLayout(BlockSize(log), blockCount, ratio).firstReserved > 0
  {
    hide Pow;
  }
}
