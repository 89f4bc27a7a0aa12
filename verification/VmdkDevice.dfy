/** The operations of utils/dfs/vmdk.c on an open image: the cache of grain
    tables, vmdk_read and vmdk_write. */
module VmdkDevice {

  import opened Arith
  import opened Basics
  import opened VmdkImage

  const L2_CACHE_SIZE := 16
  const MAX_COUNT: nat := 0xffff_ffff

  datatype Cache = Cache(tables: seq<seq<nat>>, offsets: seq<nat>, counts: seq<nat>)

  /** What one cache slot may hold: nothing, or a directory entry's table as it
      is on file. */
  ghost predicate SlotOk(geo: Geometry, file: seq<Sector>, table: seq<nat>, offset: nat) {
    && |table| == geo.entries
    && (offset != 0 ==> offset in geo.l1 && table == Table(file, offset, geo.entries))
  }

  ghost predicate CacheOk(geo: Geometry, file: seq<Sector>, c: Cache) {
    && |c.tables| == |c.offsets| == |c.counts| == L2_CACHE_SIZE
    && (forall i :: 0 <= i < L2_CACHE_SIZE ==> SlotOk(geo, file, c.tables[i], c.offsets[i]))
    && (forall i :: 0 <= i < L2_CACHE_SIZE ==> c.counts[i] < MAX_COUNT)
    && (forall i, j :: 0 <= i < j < L2_CACHE_SIZE && c.offsets[i] != 0 ==> c.offsets[i] != c.offsets[j])
  }

  /** Counts after a hit on slot i; all are halved before one could saturate. */
  function Hit(counts: seq<nat>, i: nat): (r: seq<nat>)
    requires i < |counts|
    ensures |r| == |counts|
  {
    var c := counts[i := counts[i] + 1];
    if c[i] == MAX_COUNT then Halved(c) else c
  }

  function Halved(counts: seq<nat>): (r: seq<nat>)
    ensures |r| == |counts| && forall j :: 0 <= j < |counts| ==> r[j] == counts[j] / 2
  {
    seq<nat>(|counts|, j requires 0 <= j < |counts| => counts[j] / 2)
  }

  ghost function Hits(counts: seq<nat>, slots: seq<nat>): (r: seq<nat>)
    requires forall k :: 0 <= k < |slots| ==> slots[k] < |counts|
    ensures |r| == |counts|
  {
    if slots == [] then counts else Hit(Hits(counts, slots[..|slots| - 1]), slots[|slots| - 1])
  }

  function Times(slots: seq<nat>, j: nat): nat {
    if slots == [] then 0 else Times(slots[..|slots| - 1], j) + if slots[|slots| - 1] == j then 1 else 0
  }

  /** Over any series of hits short of saturation, each slot's count grows by the
      number of its hits. */
  lemma {:induction false} HitsCounted(counts: seq<nat>, slots: seq<nat>)
    requires forall k :: 0 <= k < |slots| ==> slots[k] < |counts|
    requires forall j :: 0 <= j < |counts| ==> counts[j] + |slots| < MAX_COUNT
    ensures forall j :: 0 <= j < |counts| ==> Hits(counts, slots)[j] == counts[j] + Times(slots, j)
    ensures forall j: nat :: Times(slots, j) <= |slots|
    decreases |slots|
  {
    if slots != [] { HitsCounted(counts, slots[..|slots| - 1]); }
  }

  /** Where a count would saturate, the order of the counts stays. */
  lemma HitKeepsOrder(counts: seq<nat>, i: nat, j: nat, k: nat)
    requires i < |counts| && j < |counts| && k < |counts| && j != i && counts[j] <= counts[k]
    ensures Hit(counts, i)[j] <= Hit(counts, i)[k]
  {}

  /** The victim is a slot with the least count. */
  method LeastUsed(counts: seq<nat>) returns (m: nat)
    requires |counts| == L2_CACHE_SIZE && forall i :: 0 <= i < L2_CACHE_SIZE ==> counts[i] < MAX_COUNT
    ensures m < L2_CACHE_SIZE && forall i :: 0 <= i < L2_CACHE_SIZE ==> counts[m] <= counts[i]
    ensures forall i :: 0 <= i < m ==> counts[m] < counts[i]
  {
    m := 0;
    var min := MAX_COUNT;
    for i := 0 to L2_CACHE_SIZE
      invariant m < L2_CACHE_SIZE && (i == 0 ==> min == MAX_COUNT)
      invariant i > 0 ==> min == counts[m]
      invariant forall j :: 0 <= j < i ==> min <= counts[j]
      invariant forall j :: 0 <= j < m && j < i ==> min < counts[j]
      invariant i > 0 ==> m < i
    {
      if counts[i] < min {
        min := counts[i];
        m := i;
      }
    }
  }

  method FindOffset(offsets: seq<nat>, t: nat) returns (i: nat)
    ensures i <= |offsets| && (i < |offsets| ==> offsets[i] == t)
    ensures i == |offsets| ==> t !in offsets
  {
    for j := 0 to |offsets|
      invariant t !in offsets[..j]
    {
      if t == offsets[j] { return j; }
    }
    return |offsets|;
  }

  // ----- the cache across a step of the file ------------------------------------

  lemma SlotAt(geo: Geometry, file: seq<Sector>, c: Cache, i: nat)
    requires CacheOk(geo, file, c) && i < L2_CACHE_SIZE
    ensures |c.tables| == |c.offsets| == |c.counts| == L2_CACHE_SIZE
    ensures SlotOk(geo, file, c.tables[i], c.offsets[i]) && c.counts[i] < MAX_COUNT
  {}

  lemma HitOk(geo: Geometry, file: seq<Sector>, c: Cache, i: nat)
    requires CacheOk(geo, file, c) && i < L2_CACHE_SIZE
    ensures |c.counts| == L2_CACHE_SIZE && CacheOk(geo, file, c.(counts := Hit(c.counts, i)))
  {
    hide SlotOk;
    assert c.counts[i] < MAX_COUNT;
  }

  function Loaded(c: Cache, m: nat, t: nat, table: seq<nat>): Cache
    requires m < |c.tables| && m < |c.offsets| && m < |c.counts|
  {
    Cache(c.tables[m := table], c.offsets[m := t], c.counts[m := 1])
  }

  lemma LoadedOk(geo: Geometry, file: seq<Sector>, c: Cache, m: nat, t: nat)
    requires CacheOk(geo, file, c) && m < L2_CACHE_SIZE && t != 0 && t in geo.l1 && t !in c.offsets
    ensures |c.tables| == |c.offsets| == |c.counts| == L2_CACHE_SIZE
    ensures CacheOk(geo, file, Loaded(c, m, t, Table(file, t, geo.entries)))
  {}

  function Entered(c: Cache, i: nat, k: nat, v: nat): Cache
    requires i < |c.tables| && k < |c.tables[i]|
  {
    var table: seq<nat> := c.tables[i][k := v];
    c.(tables := c.tables[i := table])
  }

  /** A slot that holds another table is not touched by an allocation. */
  lemma SlotFilled(geo: Geometry, file: seq<Sector>, g: nat, table: seq<nat>, offset: nat)
    requires Fillable(geo, file, g) && SlotOk(geo, file, table, offset)
    ensures L2Index(geo, g) < |table|
    ensures SlotOk(geo, Filled(geo, file, g),
                   if offset == geo.l1[L1Index(geo, g)] then table[L2Index(geo, g) := |file|] else table, offset)
  {
    hide Ok, Placed, WithCluster, Loc, L1Index, L2Index, Table;
    FilledFits(geo, file, g);
    if offset != 0 {
      var j: nat :| j < |geo.l1| && geo.l1[j] == offset;
      var i := L1Index(geo, g);
      TableWithCluster(geo, file, i, L2Index(geo, g), false, j);
      if i != j {
        TablesApart(geo, false, i, false, j);
        assert geo.TableSpan() > 0;
      }
    }
  }

  lemma EnteredOk(geo: Geometry, file: seq<Sector>, c: Cache, i: nat, g: nat)
    requires CacheOk(geo, file, c) && Fillable(geo, file, g) && i < L2_CACHE_SIZE
    requires |c.offsets| == L2_CACHE_SIZE && c.offsets[i] == geo.l1[L1Index(geo, g)]
    ensures |c.tables| == L2_CACHE_SIZE && L2Index(geo, g) < |c.tables[i]|
    ensures CacheOk(geo, Filled(geo, file, g), Entered(c, i, L2Index(geo, g), |file|))
  {
    hide SlotOk, Filled, L1Index, L2Index, Ok;
    SlotFilled(geo, file, g, c.tables[i], c.offsets[i]);
    var e := Entered(c, i, L2Index(geo, g), |file|);
    assert geo.l1[L1Index(geo, g)] != 0;
    forall j | 0 <= j < L2_CACHE_SIZE
      ensures SlotOk(geo, Filled(geo, file, g), e.tables[j], e.offsets[j])
    {
      SlotFilled(geo, file, g, c.tables[j], c.offsets[j]);
      assert j != i ==> c.offsets[j] != c.offsets[i];
    }
  }

  lemma PutCache(geo: Geometry, file: seq<Sector>, c: Cache, s: nat, data: seq<Sector>)
    requires CacheOk(geo, file, c) && Writable(geo, file, s, data)
    ensures Position(geo, file, s) + |data| <= |file|
    ensures CacheOk(geo, Put(file, Position(geo, file, s), data), c)
  {
    hide Ok, Placed, Put, Position, Table, Loc;
    PutBelow(geo, file, s, data);
    forall i | 0 <= i < L2_CACHE_SIZE
      ensures SlotOk(geo, Put(file, Position(geo, file, s), data), c.tables[i], c.offsets[i])
    {
      if c.offsets[i] != 0 {
        var j: nat :| j < |geo.l1| && geo.l1[j] == c.offsets[i];
        PutTables(geo, file, s, data, false, j);
      }
    }
  }

  lemma FreshCache(geo: Geometry, file: seq<Sector>)
    ensures CacheOk(geo, file, EmptyCache(geo.entries))
  {}

  function EmptyCache(entries: nat): Cache {
    Cache(seq(L2_CACHE_SIZE, _ => ZeroWords(entries)), ZeroWords(L2_CACHE_SIZE), ZeroWords(L2_CACHE_SIZE))
  }

  // ----- requests on the virtual disk ---------------------------------------------

  /** Does the directory cover the grain of sector s? Otherwise reads give zeros
      and writes fail. */
  predicate Reaches(geo: Geometry, s: nat)
    requires geo.entries > 0 && geo.cluster > 0
  {
    geo.Mapped(L1Index(geo, GrainOf(geo, s)))
  }

  /** Of the virtual disk, exactly the sectors from s on were replaced by data. */
  ghost predicate Overwritten(geo: Geometry, before: seq<Sector>, after: seq<Sector>, s: nat, data: seq<Sector>)
    requires geo.entries > 0 && geo.cluster > 0
  {
    forall x: nat :: Content(geo, after, x) == (if s <= x < s + |data| then data[x - s] else Content(geo, before, x))
  }

  /** A flat disk, as a function of the sector number. */
  type Flat = nat -> Sector

  function Patched(d: Flat, s: nat, data: seq<Sector>): Flat {
    (x: nat) => if s <= x < s + |data| then data[x - s] else d(x)
  }

  ghost predicate Alike(d: Flat, e: Flat) {
    forall x: nat :: d(x) == e(x)
  }

  /** The virtual disk of an image. */
  function View(geo: Geometry, file: seq<Sector>): Flat {
    (s: nat) => Seen(geo, file, s)
  }

  function Seen(geo: Geometry, file: seq<Sector>, s: nat): Sector {
    if geo.entries > 0 && geo.cluster > 0 then Content(geo, file, s) else Blank()
  }

  ghost predicate Shows(geo: Geometry, file: seq<Sector>, d: Flat)
    requires geo.entries > 0 && geo.cluster > 0
  {
    forall x: nat :: Content(geo, file, x) == d(x)
  }

  lemma Viewed(geo: Geometry, file: seq<Sector>)
    requires geo.entries > 0 && geo.cluster > 0
    ensures Shows(geo, file, View(geo, file))
  {
    hide Content;
  }

  lemma StillShows(geo: Geometry, before: seq<Sector>, after: seq<Sector>, d: Flat)
    requires geo.entries > 0 && geo.cluster > 0 && Shows(geo, before, d)
    requires forall s: nat :: Content(geo, after, s) == Content(geo, before, s)
    ensures Shows(geo, after, d)
  {
    hide Content;
  }

  /** What a write leaves: the disk, and how many of its sectors were written. */
  datatype Stored = Stored(disk: Flat, done: nat)

  function Later(r: Stored, n: nat): Stored {
    r.(done := n + r.done)
  }

  function Chunk(geo: Geometry, s: nat, len: nat): (n: nat)
    requires geo.cluster > 0 && len > 0
    ensures 0 < n <= len
  {
    AndAtMost(s, geo.cluster - 1);
    var n := geo.cluster - And(s, geo.cluster - 1);
    if n > len then len else n
  }

  /** The chunks of a write, each at its landing place, up to the first that the
      directory does not reach. */
  function Stores(geo: Geometry, d: Flat, s: nat, data: seq<Sector>): Stored
    requires geo.entries > 0 && geo.cluster > 0
    decreases |data|
  {
    if data == [] || !Reaches(geo, s) then Stored(d, 0) else
    var n := Chunk(geo, s, |data|);
    Later(Stores(geo, Patched(d, Landing(geo, s), data[..n]), s + n, data[n..]), n)
  }

  lemma StoresChunk(geo: Geometry, d: Flat, s: nat, data: seq<Sector>)
    requires geo.entries > 0 && geo.cluster > 0
    ensures data == [] || !Reaches(geo, s) ==> Stores(geo, d, s, data) == Stored(d, 0)
    ensures data != [] && Reaches(geo, s) ==>
              var n := Chunk(geo, s, |data|);
              Stores(geo, d, s, data) == Later(Stores(geo, Patched(d, Landing(geo, s), data[..n]), s + n, data[n..]), n)
  {
    hide Reaches, Landing, Chunk;
  }

  /** The sectors done are replaced, and no other. */
  ghost predicate WritesFlat(geo: Geometry, d: Flat, s: nat, data: seq<Sector>)
    requires geo.entries > 0 && geo.cluster > 0
  {
    var r := Stores(geo, d, s, data);
    r.done <= |data| && Alike(r.disk, Patched(d, s, data[..r.done]))
  }

  /** For power-of-two cluster sizes a write replaces the sectors it covers, up to
      the first that is not reached. */
  lemma {:induction false} StoresFlat(geo: Geometry, d: Flat, s: nat, data: seq<Sector>)
    requires geo.entries > 0 && PowerOfTwo(geo.cluster)
    ensures geo.cluster > 0 && WritesFlat(geo, d, s, data)
    ensures var r := Stores(geo, d, s, data);
      && (forall x: nat :: s <= x < s + r.done ==> Reaches(geo, x))
      && (r.done < |data| ==> !Reaches(geo, s + r.done))
    decreases |data|
  {
    hide Reaches, Landing, Chunk, PowerOfTwo, Patched, Stores;
    LandsOnItself(geo, s);
    StoresChunk(geo, d, s, data);
    if data == [] || !Reaches(geo, s) {
      PatchedAgain(d, s, data, 0, 0);
    } else {
      var n := Chunk(geo, s, |data|);
      var rest := Stores(geo, Patched(d, s, data[..n]), s + n, data[n..]);
      StoresFlat(geo, Patched(d, s, data[..n]), s + n, data[n..]);
      ChunkReached(geo, s, |data|);
      PatchedAgain(d, s, data, n, rest.done);
    }
  }

  lemma PatchedAgain(d: Flat, s: nat, data: seq<Sector>, n: nat, m: nat)
    requires n + m <= |data|
    ensures Alike(Patched(Patched(d, s, data[..n]), s + n, data[n..][..m]), Patched(d, s, data[..n + m]))
    ensures Alike(d, Patched(d, s, data[..0]))
  {}

  lemma ChunkReached(geo: Geometry, s: nat, len: nat)
    requires geo.entries > 0 && PowerOfTwo(geo.cluster) && len > 0 && Reaches(geo, s)
    ensures forall x: nat :: s <= x < s + Chunk(geo, s, len) ==> Reaches(geo, x)
  {
    hide Reaches, PowerOfTwo, And;
    MaskModulo(s, geo.cluster);
    ReachesChunk(geo, s, Chunk(geo, s, len));
  }

  /** A write followed by a read behaves like a flat disk, for every disk and every
      request, exactly if the cluster size is a power of two. */
  lemma WritesFlatExactly(geo: Geometry)
    requires geo.entries > 0 && geo.cluster > 0 && Reaches(geo, geo.cluster)
    ensures (forall d: Flat, s: nat, data: seq<Sector> :: WritesFlat(geo, d, s, data)) <==> PowerOfTwo(geo.cluster)
  {
    hide Reaches, PowerOfTwo, And;
    if PowerOfTwo(geo.cluster) {
      forall d: Flat, s: nat, data: seq<Sector>
        ensures WritesFlat(geo, d, s, data)
      {
        StoresFlat(geo, d, s, data);
      }
    } else {
      var c := geo.cluster;
      if And(c, c - 1) == 0 {
        MaskOfSelf(c);
        assert false;
      }
      StrayWrite(geo);
    }
  }

  /** One sector written to sector c of a blank disk with clusters of size c. */
  lemma StrayWrite(geo: Geometry)
    requires geo.entries > 0 && geo.cluster > 0 && Reaches(geo, geo.cluster) && And(geo.cluster, geo.cluster - 1) > 0
    ensures !WritesFlat(geo, BlankDisk(), geo.cluster, [Ones()])
  {
    hide Reaches, And;
    var c, data := geo.cluster, [Ones()];
    var d := BlankDisk();
    DivModUnique(c, 1, 0, c);
    assert Chunk(geo, c, 1) == 1 && data[..1] == data && data[1..] == [];
    StoresChunk(geo, d, c, data);
    StoresChunk(geo, Patched(d, Landing(geo, c), data), c + 1, []);
    assert Ones()[0] == 1 && Blank()[0] == 0;
    assert Stores(geo, d, c, data).disk(c) != Patched(d, c, data)(c);
  }

  function BlankDisk(): Flat {
    (_: nat) => Blank()
  }

  function Ones(): Sector {
    seq<nat>(WORDS, _ => 1)
  }

  lemma FlatWritten(geo: Geometry, before: seq<Sector>, after: seq<Sector>, s: nat, data: seq<Sector>)
    requires geo.entries > 0 && geo.cluster > 0 && Shows(geo, after, Stores(geo, View(geo, before), s, data).disk)
    ensures var done := Stores(geo, View(geo, before), s, data).done;
            PowerOfTwo(geo.cluster) ==>
              && done <= |data| && Overwritten(geo, before, after, s, data[..done])
              && (forall x: nat :: s <= x < s + done ==> Reaches(geo, x))
              && (done < |data| ==> !Reaches(geo, s + done))
  {
    hide Content, PowerOfTwo, Stores, Reaches;
    if PowerOfTwo(geo.cluster) { StoresFlat(geo, View(geo, before), s, data); }
  }

  lemma PutChunk(geo: Geometry, file: seq<Sector>, c: Cache, s: nat, data: seq<Sector>, d: Flat)
    requires CacheOk(geo, file, c) && Writable(geo, file, s, data) && Shows(geo, file, d)
    ensures Position(geo, file, s) + |data| <= |file|
    ensures Ok(geo, Put(file, Position(geo, file, s), data))
    ensures CacheOk(geo, Put(file, Position(geo, file, s), data), c)
    ensures Tidy(geo, file) ==> Tidy(geo, Put(file, Position(geo, file, s), data))
    ensures Shows(geo, Put(file, Position(geo, file, s), data), Patched(d, s, data))
  {
    hide Ok, Tidy, CacheOk, Content, Put, Position;
    PutOk(geo, file, s, data);
    PutCache(geo, file, c, s, data);
    forall x: nat
      ensures Content(geo, Put(file, Position(geo, file, s), data), x) == Patched(d, s, data)(x)
    {
      PutContent(geo, file, s, data, x);
    }
  }

  class Device {
    const geo: Geometry
    var file: seq<Sector>
    var cache: Cache

    ghost predicate Valid()
      reads this
    {
      Ok(geo, file) && CacheOk(geo, file, cache) && geo.entries > 0 && geo.cluster > 0
    }

    /** vmdk_open on an image that vmdk_create made and vmdk_write may have changed. */
    constructor (image: seq<Sector>)
      requires Parse(image).Some? && Ok(Parse(image).value, image)
      ensures Valid() && file == image && Parse(image) == Some(geo)
    {
      geo := Parse(image).value;
      file := image;
      cache := EmptyCache(Parse(image).value.entries);
      OkSized(Parse(image).value, image);
      FreshCache(Parse(image).value, image);
    }

    /** The cache slot for table t: a hit is counted, a miss replaces the least
        used slot. The product t * 512 is taken in 32 bits. */
    method LoadTable(t: nat) returns (i: nat)
      requires Valid() && t != 0 && t in geo.l1
      modifies this`cache
      ensures Valid() && i < L2_CACHE_SIZE == |cache.offsets| == |cache.tables|
      ensures cache.offsets[i] == t && cache.tables[i] == Table(file, t, geo.entries)
      ensures |old(cache.offsets)| == |old(cache.counts)| == |old(cache.tables)| == L2_CACHE_SIZE
      ensures t in old(cache.offsets) ==> cache == old(cache).(counts := Hit(old(cache.counts), i))
      ensures t !in old(cache.offsets) ==> cache == Loaded(old(cache), i, t, cache.tables[i]) && cache.counts[i] == 1
      ensures t !in old(cache.offsets) ==>
                forall j :: 0 <= j < L2_CACHE_SIZE ==> old(cache.counts)[i] <= old(cache.counts)[j]
    {
      hide Ok, Table, SlotOk;
      SlotAt(geo, file, cache, 0);
      i := FindOffset(cache.offsets, t);
      if i < L2_CACHE_SIZE {
        HitOk(geo, file, cache, i);
        SlotTable(geo, file, cache, i);
        cache := cache.(counts := Hit(cache.counts, i));
        return;
      }
      i := LeastUsed(cache.counts);
      var pos := t * 512 % WORD_LIMIT;
      NoOverflow(geo, file, t);
      LoadedOk(geo, file, cache, i, t);
      cache := Loaded(cache, i, t, Table(file, pos / 512, geo.entries));
    }

    /** get_cluster_offset, in sectors; 0 where there is no cluster. */
    method GetClusterOffset(sector: nat, allocate: bool) returns (c: nat)
      requires Valid() && sector < 0x8000_0000
      modifies this
      ensures Valid()
      ensures c == Loc(geo, file, GrainOf(geo, sector))
      ensures c == 0 <==> !Reaches(geo, sector) || (!allocate && Loc(geo, old(file), GrainOf(geo, sector)) == 0)
      ensures !allocate ==> file == old(file)
      ensures Tidy(geo, old(file)) ==> Tidy(geo, file)
      ensures forall s: nat :: Content(geo, file, s) == Content(geo, old(file), s)
    {
      hide Ok, Tidy, Table, SlotOk, CacheOk, Entry, Content, L1Index, L2Index, GrainOf, Parse;
      ghost var g := GrainOf(geo, sector);
      Indices(geo, file, sector);
      var i1 := sector / (geo.entries * geo.cluster % WORD_LIMIT);
      if i1 >= |geo.l1| { return 0; }
      var t := geo.l1[i1];
      if t == 0 { return 0; }
      var slot := LoadTable(t);
      var k := sector / geo.cluster % geo.entries;
      c := cache.tables[slot][k];
      if c == 0 && allocate {
        OkSized(geo, file);
        FilledFits(geo, file, g);
        FilledOk(geo, file, g);
        if Tidy(geo, file) { FilledTidy(geo, file, g); }
        EnteredOk(geo, file, cache, slot, g);
        LocFilled(geo, file, g, g);
        forall s: nat
          ensures Content(geo, Filled(geo, file, g), s) == Content(geo, file, s)
        {
          FilledContent(geo, file, g, s);
        }
        c := |file|;
        file := file + Zeros(geo.cluster);
        var tmp := c % WORD_LIMIT;
        cache := Entered(cache, slot, k, tmp);
        file := WriteWord(file, t, k, tmp);
        if geo.gd != 0 {
          file := WriteWord(file, geo.backup[i1], k, tmp);
        }
      }
    }

    /** vmdk_read: the sectors of the virtual disk, zeros where nothing was written. */
    method Read(sector: nat, count: nat) returns (buf: seq<Sector>)
      requires Valid() && sector + count <= 0x8000_0000
      modifies this
      ensures Valid() && file == old(file)
      ensures |buf| == count && forall i :: 0 <= i < count ==> buf[i] == Content(geo, old(file), sector + i)
    {
      hide Ok, CacheOk, Content, Loc, Reaches;
      buf := [];
      while |buf| < count
        invariant Valid() && file == old(file)
        invariant |buf| <= count && forall i :: 0 <= i < |buf| ==> buf[i] == Content(geo, file, sector + i)
        decreases count - |buf|
      {
        var at := sector + |buf|;
        var c := GetClusterOffset(at, false);
        var within := at % geo.cluster;
        var n := geo.cluster - within;
        if n > count - |buf| { n := count - |buf|; }
        ChunkContent(geo, file, at, n);
        if c == 0 {
          buf := buf + Zeros(n);
        } else {
          buf := buf + file[c + within..c + within + n];
        }
      }
    }

    /** vmdk_write, for any cluster size: chunk by chunk, each at its landing place,
        until the first sector that the directory does not reach. For power-of-two
        cluster sizes the data replaces exactly the sectors it covers. */
    method Write(sector: nat, data: seq<Sector>) returns (ok: bool, ghost done: nat)
      requires Valid() && sector + |data| <= 0x8000_0000
      modifies this
      ensures Valid() && done <= |data| && (ok <==> done == |data|)
      ensures var s := Stores(geo, View(geo, old(file)), sector, data); Shows(geo, file, s.disk) && done == s.done
      ensures done < |data| ==> !Reaches(geo, sector + done)
      ensures Tidy(geo, old(file)) ==> Tidy(geo, file)
      ensures PowerOfTwo(geo.cluster) ==> forall s: nat :: sector <= s < sector + done ==> Reaches(geo, s)
      ensures PowerOfTwo(geo.cluster) ==> Overwritten(geo, old(file), file, sector, data[..done])
    {
      hide Ok, Tidy, CacheOk, Content, Loc, Reaches, PowerOfTwo, Put, Stores, Shows, Patched;
      ghost var start := View(geo, file);
      ghost var now := start;
      Viewed(geo, file);
      var i := 0;
      while i < |data|
        invariant Valid() && i <= |data| && Shows(geo, file, now) && (Tidy(geo, old(file)) ==> Tidy(geo, file))
        invariant Stores(geo, start, sector, data) == Later(Stores(geo, now, sector + i, data[i..]), i)
      {
        var at := sector + i;
        var within := And(at, geo.cluster - 1);
        LandingIn(geo, at);
        var n := geo.cluster - within;
        if n > |data| - i { n := |data| - i; }
        StoresChunk(geo, now, at, data[i..]);
        ghost var before := file;
        var c := GetClusterOffset(at, true);
        StillShows(geo, before, file, now);
        if c == 0 {
          FlatWritten(geo, old(file), file, sector, data);
          return false, i;
        }
        PutChunk(geo, file, cache, Landing(geo, at), data[i..i + n], now);
        file := Put(file, c + within, data[i..i + n]);
        now := Patched(now, Landing(geo, at), data[i..i + n]);
        assert data[i..][..n] == data[i..i + n] && data[i..][n..] == data[i + n..];
        i := i + n;
      }
      assert data[i..] == [];
      StoresChunk(geo, now, sector + i, []);
      FlatWritten(geo, old(file), file, sector, data);
      return true, i;
    }
  }

  /** The sectors of one chunk are consecutive in one cluster, or all blank. */
  lemma ChunkContent(geo: Geometry, file: seq<Sector>, s: nat, n: nat)
    requires Ok(geo, file) && geo.entries > 0 && geo.cluster > 0 && Within(geo, s) + n <= geo.cluster
    ensures var c := Loc(geo, file, GrainOf(geo, s));
            && (c != 0 ==> c + geo.cluster <= |file|)
            && forall x: nat :: s <= x < s + n ==>
                 Content(geo, file, x) == if c == 0 then Blank() else file[c + Within(geo, s) + (x - s)]
  {
    hide Ok, Loc, GrainOf, Within;
    var c := Loc(geo, file, GrainOf(geo, s));
    if c != 0 { ClusterAt(geo, file, GrainOf(geo, s)); }
    forall x: nat | s <= x < s + n
      ensures Content(geo, file, x) == if c == 0 then Blank() else file[c + Within(geo, s) + (x - s)]
    {
      SameGrain(geo, s, x - s);
    }
  }

  lemma ReachesChunk(geo: Geometry, s: nat, n: nat)
    requires geo.entries > 0 && geo.cluster > 0 && Within(geo, s) + n <= geo.cluster
    ensures forall x: nat :: s <= x < s + n ==> Reaches(geo, x) == Reaches(geo, s)
  {
    hide GrainOf, Within, L1Index;
    forall x: nat | s <= x < s + n
      ensures Reaches(geo, x) == Reaches(geo, s)
    {
      SameGrain(geo, s, x - s);
    }
  }

  lemma SlotTable(geo: Geometry, file: seq<Sector>, c: Cache, i: nat)
    requires CacheOk(geo, file, c) && i < L2_CACHE_SIZE
    ensures |c.offsets| == |c.tables| == L2_CACHE_SIZE
    ensures c.offsets[i] != 0 ==> c.tables[i] == Table(file, c.offsets[i], geo.entries)
  {}

  lemma NoOverflow(geo: Geometry, file: seq<Sector>, t: nat)
    requires Ok(geo, file) && t != 0 && t in geo.l1
    ensures t * 512 % WORD_LIMIT == t * 512
  {
    hide Ok, Placed, Sized;
    OkSized(geo, file);
    var j: nat :| j < |geo.l1| && geo.l1[j] == t;
    TableIsPlaced(geo, false, j);
    SmallModulo(t * 512, WORD_LIMIT);
  }

  /** The indices that the code computes from the sector are the grain's. */
  lemma Indices(geo: Geometry, file: seq<Sector>, s: nat)
    requires Ok(geo, file) && geo.entries > 0 && geo.cluster > 0
    ensures geo.entries * geo.cluster % WORD_LIMIT == geo.entries * geo.cluster > 0
    ensures s / (geo.entries * geo.cluster) == L1Index(geo, GrainOf(geo, s))
    ensures s / geo.cluster % geo.entries == L2Index(geo, GrainOf(geo, s))
    ensures |geo.backup| == |geo.l1|
  {
    hide Ok, Placed, Sized;
    OkSized(geo, file);
    EntrySectors(geo);
    IndexLines(s, geo.cluster, geo.entries);
  }

  lemma EntrySectors(geo: Geometry)
    requires Sized(geo)
    ensures geo.entries * geo.cluster % WORD_LIMIT == geo.entries * geo.cluster
  {
    SmallModulo(geo.entries * geo.cluster, WORD_LIMIT);
  }

  lemma SmallModulo(x: nat, m: nat)
    requires x < m
    ensures x % m == x
  {}

  lemma IndexLines(s: nat, c: nat, n: nat)
    requires c > 0 && n > 0
    ensures n * c > 0 && s / (n * c) == s / c / n
  {
    DivDiv(s, c, n);
    assert c * n == n * c;
  }

  // ----- a cluster size that is no power of two -------------------------------------

  /** Clusters of three sectors, one table, no backup directory. */
  function ThreeGeometry(): Geometry {
    Geometry(3, WORDS, [2], [0], 1, 0, 3)
  }

  /** Header, directory and an empty table. */
  function ThreeImage(): seq<Sector> {
    [Blank()[0 := VMDK4_MAGIC][3 := 6][5 := 3][11 := WORDS][12 := 1][16 := 3], Blank()[0 := 2], Blank()]
  }

  lemma ThreeOk()
    ensures Parse(ThreeImage()) == Some(ThreeGeometry()) && Ok(ThreeGeometry(), ThreeImage())
    ensures forall s: nat :: Content(ThreeGeometry(), ThreeImage(), s) == Blank()
  {
    var f, geo := ThreeImage(), ThreeGeometry();
    assert L1Size(6, 384) == 1;
    assert Table(f, 1, 1) == [2] && ZeroWords(1) == [0];
    forall g: nat ensures Loc(geo, f, g) == 0 {
      if geo.Mapped(L1Index(geo, g)) { assert f[2 + L2Index(geo, g) / WORDS] == Blank(); }
    }
    assert Allocated(geo, f) == {};
  }

  /** On such an image a sector written at 3 is read back at 5, and 3 stays blank. */
  method WriteGoesAstray(x: Sector) returns (there: seq<Sector>, astray: seq<Sector>)
    ensures there == [Blank()] && astray == [x]
  {
    hide Ok, CacheOk, Content, Parse, ThreeImage, ThreeGeometry, Shows, Stores, View, Reaches, Overwritten, PowerOfTwo;
    ThreeOk();
    var dev := new Device(ThreeImage());
    var ok;
    ghost var done;
    ok, done := dev.Write(3, [x]);
    AstrayContent(dev.file, x);
    there := dev.Read(3, 1);
    astray := dev.Read(5, 1);
  }

  lemma AstrayContent(file: seq<Sector>, x: Sector)
    requires ThreeGeometry().entries > 0 && ThreeGeometry().cluster > 0
    requires Shows(ThreeGeometry(), file, Stores(ThreeGeometry(), View(ThreeGeometry(), ThreeImage()), 3, [x]).disk)
    ensures Content(ThreeGeometry(), file, 3) == Blank() && Content(ThreeGeometry(), file, 5) == x
  {
    hide Content, Stores, ThreeImage, ThreeGeometry;
    ThreeOk();
    ThreeStores(View(ThreeGeometry(), ThreeImage()), x);
  }

  lemma ThreeStores(d: Flat, x: Sector)
    ensures Stores(ThreeGeometry(), d, 3, [x]) == Stored(Patched(d, 5, [x]), 1)
  {
    var geo := ThreeGeometry();
    assert And(3, 2) == 2 by { assert And(1, 1) == 1; }
    assert Landing(geo, 3) == 5 && Chunk(geo, 3, 1) == 1;
    assert [x][..1] == [x] && [x][1..] == [];
    StoresChunk(geo, d, 3, [x]);
    StoresChunk(geo, Patched(d, 5, [x]), 4, []);
  }

  // ----- vmdk_create ------------------------------------------------------------

  const GRANULARITY := 128
  const GT_ENTRIES := 512
  const GT_SIZE := 4
  const DESC_SECTORS := 20
  const RGD_OFFSET := 21

  function GtCount(total: nat): nat {
    ((total + GRANULARITY - 1) / GRANULARITY + GT_ENTRIES - 1) / GT_ENTRIES
  }

  function GdSize(total: nat): nat {
    (GtCount(total) * 4 + 511) / 512
  }

  function GdOffset(total: nat): nat {
    RGD_OFFSET + GdSize(total) + GT_SIZE * GtCount(total)
  }

  function GrainStart(total: nat): nat {
    (GdOffset(total) + GdSize(total) + GT_SIZE * GtCount(total) + GRANULARITY - 1) / GRANULARITY * GRANULARITY
  }

  /** The magic number and the header, as 32-bit words. */
  function Header(total: nat): (r: Sector)
  {
    [VMDK4_MAGIC, 1, 3, total, 0, GRANULARITY, 0, 1, 0, DESC_SECTORS, 0, GT_ENTRIES,
     RGD_OFFSET, 0, GdOffset(total), 0, GrainStart(total), 0, 0x0D20_0A00, 0x0A] + ZeroWords(108)
  }

  function Directory(first: nat, n: nat): (r: seq<nat>)
    ensures |r| == n && forall i :: 0 <= i < n ==> r[i] == first + GT_SIZE * i
  {
    seq<nat>(n, i requires 0 <= i < n => first + GT_SIZE * i)
  }

  function FreshGeometry(total: nat): Geometry {
    Geometry(GRANULARITY, GT_ENTRIES,
             Directory(RGD_OFFSET + GdSize(total), GtCount(total)),
             Directory(GdOffset(total) + GdSize(total), GtCount(total)),
             RGD_OFFSET, GdOffset(total), GrainStart(total))
  }

  /** vmdk_create and vmdk_open compute the same directory size. */
  lemma DirectorySizes(total: nat)
    requires total < 0x8000_0000
    ensures L1Size(Wide(total, 0), GT_ENTRIES * GRANULARITY) == GtCount(total) <= 32768
    ensures GdSize(total) == Span(GtCount(total))
  {
    CeilCeil(total, GRANULARITY, GT_ENTRIES);
  }

  /** The layout that the header of a new image describes: behind the header sector
      the descriptor, the directory, its tables, the backup directory and its tables,
      with no gap, and then, aligned to a grain, the clusters. There are as many
      tables as it takes to cover the disk, and the directories have room for them. */
  lemma CreatedLayout(total: nat)
    ensures var h, tables, dir := Header(total), GtCount(total), GdSize(total);
            && h[0] == VMDK4_MAGIC && h[1] == 1 && h[2] == 3 && Wide(h[3], h[4]) == total
            && h[18] / 0x100 == 0x0A + 0x100 * 0x20 + 0x1_0000 * 0x0D && h[19] == 0x0A
            && Wide(h[7], h[8]) == 1 && Wide(h[12], h[13]) == Wide(h[7], h[8]) + Wide(h[9], h[10])
            && Wide(h[14], h[15]) == Wide(h[12], h[13]) + dir + Span(h[11]) * tables
            && (h[16] - h[5]) < Wide(h[14], h[15]) + dir + Span(h[11]) * tables <= h[16] && h[16] % h[5] == 0
            && (tables - 1) * (h[11] * h[5]) < total <= tables * (h[11] * h[5])
            && dir == Span(tables)
  {
    hide GtCount, GdSize;
    TablesOf(total);
    GrainLines(GdOffset(total) + GdSize(total) + GT_SIZE * GtCount(total));
  }

  lemma TablesOf(total: nat)
    ensures (GtCount(total) - 1) * 65536 < total <= GtCount(total) * 65536
    ensures GdSize(total) == Span(GtCount(total))
  {
    CeilCeil(total, GRANULARITY, GT_ENTRIES);
  }

  lemma GrainLines(end: nat)
    ensures var start := (end + GRANULARITY - 1) / GRANULARITY * GRANULARITY;
            start - GRANULARITY < end <= start && start % GRANULARITY == 0
  {}

  /** The magic number and the header are 77 bytes; behind them the sector keeps
      what it held. */
  function HeaderOver(total: nat, held: Sector): Sector {
    Header(total)[..19] + [held[19] / 0x100 * 0x100 + 0x0A] + held[20..]
  }

  function WithHeader(total: nat, file: seq<Sector>): (r: seq<Sector>)
    ensures |r| > 0
  {
    if file == [] then [HeaderOver(total, Blank())] else file[0 := HeaderOver(total, file[0])]
  }

  /** The last byte of a sector set to zero. */
  function Cleared(s: Sector): Sector {
    s[WORDS - 1 := s[WORDS - 1] % 0x100_0000]
  }

  /** set_eof at sector n writes one zero byte in front of it: a shorter file grows,
      a longer one keeps its length. */
  function Ended(file: seq<Sector>, n: nat): (r: seq<Sector>)
    requires n > 0
    ensures |r| >= n
  {
    if |file| < n then file + Zeros(n - |file|)
    else file[n - 1 := Cleared(file[n - 1])]
  }

  /** The header and both directories are in place. */
  ghost predicate Laid(total: nat, file: seq<Sector>) {
    && |file| >= GrainStart(total) && |file| > 0
    && file[0][..19] == Header(total)[..19]
    && Table(file, RGD_OFFSET, GtCount(total)) == FreshGeometry(total).l1
    && Table(file, GdOffset(total), GtCount(total)) == FreshGeometry(total).backup
  }

  predicate DirectorySector(total: nat, s: nat) {
    RGD_OFFSET <= s < RGD_OFFSET + GdSize(total) || GdOffset(total) <= s < GdOffset(total) + GdSize(total)
  }

  /** The tables that are read; the backup tables lie behind the backup directory. */
  predicate TableSector(total: nat, s: nat) {
    RGD_OFFSET + GdSize(total) <= s < GdOffset(total)
  }

  predicate BackupSector(total: nat, s: nat) {
    GdOffset(total) + GdSize(total) <= s < GdOffset(total) + GdSize(total) + GT_SIZE * GtCount(total)
  }

  ghost predicate TablesBlank(total: nat, file: seq<Sector>) {
    forall s :: 0 <= s < |file| && TableSector(total, s) ==> file[s] == Blank()
  }

  ghost predicate BackupsBlank(total: nat, file: seq<Sector>) {
    forall s :: 0 <= s < |file| && BackupSector(total, s) ==> file[s] == Blank()
  }

  /** A file of n sectors can take all clusters of the disk. */
  predicate HasRoom(total: nat, n: nat) {
    n + GRANULARITY * (GT_ENTRIES * GtCount(total)) <= WORD_LIMIT
  }

  ghost predicate Fresh(total: nat, file: seq<Sector>) {
    Laid(total, file) && HasRoom(total, |file|) && TablesBlank(total, file)
  }

  function Length(total: nat, previous: seq<Sector>): nat {
    if |previous| < GrainStart(total) then GrainStart(total) else |previous|
  }

  /** A file over which vmdk_create makes a new image: blank where the grain tables
      go, and not too long. A file that does not exist is empty. */
  ghost predicate Clean(total: nat, previous: seq<Sector>) {
    HasRoom(total, Length(total, previous)) && TablesBlank(total, previous)
  }

  /** A sector outside header and directories after vmdk_create: the descriptor's, or
      what the file held, less the one byte that set_eof clears. */
  function NewSector(total: nat, previous: seq<Sector>, descriptor: seq<Sector>, s: nat): Sector {
    if 1 <= s <= |descriptor| then descriptor[s - 1] else
    if s >= |previous| then Blank() else
    if s + 1 == GrainStart(total) then Cleared(previous[s]) else previous[s]
  }

  ghost predicate Made(total: nat, previous: seq<Sector>, descriptor: seq<Sector>, file: seq<Sector>) {
    && Laid(total, file) && |file| == Length(total, previous)
    && forall s :: 0 < s < |file| && !DirectorySector(total, s) ==> file[s] == NewSector(total, previous, descriptor, s)
  }

  /** The tables never end at the first cluster, so that the byte set_eof writes
      lies between them. */
  lemma PaddingLeft(total: nat)
    ensures GdOffset(total) + GdSize(total) + GT_SIZE * GtCount(total) < GrainStart(total)
    ensures RGD_OFFSET + GdSize(total) <= GdOffset(total)
  {
    var odd := GdOffset(total) + GdSize(total) + GT_SIZE * GtCount(total);
    assert odd == 21 + 2 * (GdSize(total) + GT_SIZE * GtCount(total));
    OddPadding(GdSize(total) + GT_SIZE * GtCount(total));
  }

  lemma OddPadding(k: nat)
    ensures 21 + 2 * k < (21 + 2 * k + GRANULARITY - 1) / GRANULARITY * GRANULARITY
  {}

  lemma FreshPlaced(total: nat)
    requires total < 0x8000_0000
    ensures Placed(FreshGeometry(total))
  {
    DirectorySizes(total);
  }

  lemma LaidParse(total: nat, file: seq<Sector>)
    requires total < 0x8000_0000 && Laid(total, file)
    ensures Parse(file) == Some(FreshGeometry(total))
  {
    hide Table, Header, L1Size, Directory, Span, GtCount, GdSize, GdOffset, GrainStart;
    DirectorySizes(total);
    HeaderWords(total, file[0]);
    assert GT_ENTRIES * GRANULARITY % WORD_LIMIT == GT_ENTRIES * GRANULARITY;
    DirectoriesFit(total);
  }

  lemma HeaderWords(total: nat, h: Sector)
    requires h[..19] == Header(total)[..19]
    ensures && h[0] == VMDK4_MAGIC && h[3] == total && h[4] == 0 && h[5] == GRANULARITY && h[11] == GT_ENTRIES
            && h[12] == RGD_OFFSET && h[13] == 0 && h[14] == GdOffset(total) && h[15] == 0
            && h[16] == GrainStart(total) && h[17] == 0
  {
    forall i | 0 <= i < 19 ensures h[i] == Header(total)[i] {
      assert h[..19][i] == Header(total)[..19][i];
    }
  }

  lemma DirectoriesFit(total: nat)
    requires total < 0x8000_0000
    ensures RGD_OFFSET + Span(GtCount(total)) <= GrainStart(total)
    ensures 0 < GdOffset(total) && GdOffset(total) + Span(GtCount(total)) <= GrainStart(total)
  {
    DirectorySizes(total);
  }

  /** A table fills four sectors of its area. */
  lemma TableSectors(total: nat, b: bool, i: nat)
    requires FreshGeometry(total).HasTable(b, i)
    ensures FreshGeometry(total).TableAt(b, i) + GT_SIZE <= GrainStart(total)
    ensures forall s: nat :: FreshGeometry(total).TableAt(b, i) <= s < FreshGeometry(total).TableAt(b, i) + GT_SIZE ==>
              if b then BackupSector(total, s) else TableSector(total, s)
  {
    PaddingLeft(total);
  }

  lemma BlankTable(total: nat, file: seq<Sector>, b: bool, i: nat)
    requires Laid(total, file) && FreshGeometry(total).HasTable(b, i)
    requires if b then BackupsBlank(total, file) else TablesBlank(total, file)
    ensures Table(file, FreshGeometry(total).TableAt(b, i), GT_ENTRIES) == ZeroWords(GT_ENTRIES)
  {
    TableSectors(total, b, i);
    var t := FreshGeometry(total).TableAt(b, i);
    forall k | 0 <= k < GT_ENTRIES ensures Entry(file, t, k) == 0 {
      assert if b then BackupSector(total, t + k / WORDS) else TableSector(total, t + k / WORDS);
    }
  }

  /** A new image meets the metadata invariant and its virtual disk is blank. */
  lemma FreshOk(total: nat, file: seq<Sector>)
    requires total < 0x8000_0000 && Fresh(total, file)
    ensures Ok(FreshGeometry(total), file)
    ensures forall s: nat :: Content(FreshGeometry(total), file, s) == Blank()
    ensures BackupsBlank(total, file) && |file| == GrainStart(total) ==> Tidy(FreshGeometry(total), file)
  {
    hide Laid, Parse, Placed, Table, FreshGeometry, TablesBlank, BackupsBlank;
    var geo := FreshGeometry(total);
    FreshPlaced(total);
    FreshSizes(total);
    LaidParse(total, file);
    FreshLoc(total, file);
    LaidLength(total, file);
    assert Allocated(geo, file) == {};
    if BackupsBlank(total, file) {
      forall i: nat | geo.HasTable(true, i)
        ensures Table(file, geo.backup[i], geo.entries) == Table(file, geo.l1[i], geo.entries)
      {
        BlankTable(total, file, true, i);
        BlankTable(total, file, false, i);
      }
    }
  }

  lemma LaidLength(total: nat, file: seq<Sector>)
    requires Laid(total, file)
    ensures |file| >= GrainStart(total)
  {}

  lemma FreshLoc(total: nat, file: seq<Sector>)
    requires Laid(total, file) && TablesBlank(total, file)
    ensures FreshGeometry(total).entries > 0
    ensures forall g: nat :: Loc(FreshGeometry(total), file, g) == 0
  {
    hide Laid, TablesBlank, Table, FreshGeometry, L1Index, L2Index;
    FreshSizes(total);
    var geo := FreshGeometry(total);
    forall g: nat
      ensures Loc(geo, file, g) == 0
    {
      if geo.Mapped(L1Index(geo, g)) {
        BlankTable(total, file, false, L1Index(geo, g));
        assert Table(file, geo.l1[L1Index(geo, g)], geo.entries)[L2Index(geo, g)] == 0;
      }
    }
  }

  method WriteDirectory(file: seq<Sector>, at: nat, first: nat, count: nat) returns (r: seq<Sector>)
    requires at + Span(count) <= |file|
    ensures |r| == |file| && Table(r, at, count) == Directory(first, count)
    ensures forall s :: 0 <= s < |file| && (s < at || at + Span(count) <= s) ==> r[s] == file[s]
  {
    r := file;
    var tmp := first;
    for i := 0 to count
      invariant |r| == |file| && tmp == first + GT_SIZE * i
      invariant forall j :: 0 <= j < i ==> Entry(r, at, j) == first + GT_SIZE * j
      invariant forall s :: 0 <= s < |file| && (s < at || at + Span(count) <= s) ==> r[s] == file[s]
    {
      ghost var before := r;
      r := WriteWord(r, at, i, tmp);
      forall j | 0 <= j <= i
        ensures Entry(r, at, j) == first + GT_SIZE * j
      {
        EntryWritten(before, at, i, tmp, at, j, count);
      }
      tmp := tmp + GT_SIZE;
    }
  }

  /** What vmdk_create leaves alone: the tables, and everything from the first
      cluster on. */
  lemma LeftAlone(total: nat, previous: seq<Sector>, descriptor: seq<Sector>, file: seq<Sector>, s: nat)
    requires Made(total, previous, descriptor, file) && |descriptor| <= DESC_SECTORS && s < |file|
    requires TableSector(total, s) || BackupSector(total, s) || GrainStart(total) <= s
    ensures file[s] == if s < |previous| then previous[s] else Blank()
  {
    hide Laid;
    PaddingLeft(total);
  }

  /** An image made over the remains of an image of the same capacity is that image
      again. */
  lemma RemadeOk(total: nat, previous: seq<Sector>, descriptor: seq<Sector>, file: seq<Sector>)
    requires total < 0x8000_0000 && |descriptor| <= DESC_SECTORS && Made(total, previous, descriptor, file)
    requires Ok(FreshGeometry(total), previous)
    ensures Ok(FreshGeometry(total), file)
    ensures Tidy(FreshGeometry(total), previous) ==> Tidy(FreshGeometry(total), file)
    ensures forall s: nat :: Content(FreshGeometry(total), file, s) == Content(FreshGeometry(total), previous, s)
  {
    hide Ok, Tidy, Laid, Parse, Placed, Table, FreshGeometry, Made, Loc, Within, GrainOf;
    var geo := FreshGeometry(total);
    FreshSizes(total);
    OkSized(geo, previous);
    MadeFacts(total, previous, descriptor, file);
    LaidParse(total, file);
    forall g: nat ensures Loc(geo, file, g) == Loc(geo, previous, g) {
      RemadeLoc(total, previous, descriptor, file, g);
    }
    RemadeInvariant(total, previous, descriptor, file);
    forall s: nat ensures Content(geo, file, s) == Content(geo, previous, s) {
      var c := Loc(geo, previous, GrainOf(geo, s));
      if c != 0 {
        ClusterAt(geo, previous, GrainOf(geo, s));
        LeftAlone(total, previous, descriptor, file, c + Within(geo, s));
      }
    }
  }

  lemma MadeFacts(total: nat, previous: seq<Sector>, descriptor: seq<Sector>, file: seq<Sector>)
    requires Made(total, previous, descriptor, file)
    ensures Laid(total, file) && |file| == Length(total, previous)
  {}

  lemma RemadeTable(total: nat, previous: seq<Sector>, descriptor: seq<Sector>, file: seq<Sector>, b: bool, i: nat)
    requires Made(total, previous, descriptor, file) && |descriptor| <= DESC_SECTORS
    requires GrainStart(total) <= |previous| && FreshGeometry(total).HasTable(b, i)
    ensures Table(file, FreshGeometry(total).TableAt(b, i), GT_ENTRIES) ==
            Table(previous, FreshGeometry(total).TableAt(b, i), GT_ENTRIES)
  {
    hide Table, FreshGeometry, TableSector, BackupSector, GrainStart, Made, Laid;
    MadeFacts(total, previous, descriptor, file);
    TableSectors(total, b, i);
    var t := FreshGeometry(total).TableAt(b, i);
    assert Span(GT_ENTRIES) == GT_SIZE;
    forall s | t <= s < t + GT_SIZE ensures file[s] == previous[s] {
      LeftAlone(total, previous, descriptor, file, s);
    }
    TableFrame(previous, file, t, GT_ENTRIES);
  }

  lemma RemadeLoc(total: nat, previous: seq<Sector>, descriptor: seq<Sector>, file: seq<Sector>, g: nat)
    requires Made(total, previous, descriptor, file) && |descriptor| <= DESC_SECTORS
    requires GrainStart(total) <= |previous| && FreshGeometry(total).entries > 0
    ensures Loc(FreshGeometry(total), file, g) == Loc(FreshGeometry(total), previous, g)
  {
    hide Table, FreshGeometry, Made, L1Index, L2Index;
    FreshSizes(total);
    var geo := FreshGeometry(total);
    var i := L1Index(geo, g);
    if geo.Mapped(i) {
      RemadeTable(total, previous, descriptor, file, false, i);
      assert Table(file, geo.l1[i], geo.entries)[L2Index(geo, g)] ==
             Table(previous, geo.l1[i], geo.entries)[L2Index(geo, g)];
    }
  }

  lemma RemadeInvariant(total: nat, previous: seq<Sector>, descriptor: seq<Sector>, file: seq<Sector>)
    requires Made(total, previous, descriptor, file) && |descriptor| <= DESC_SECTORS
    requires Ok(FreshGeometry(total), previous) && GrainStart(total) <= |previous|
    requires Parse(file) == Some(FreshGeometry(total)) && FreshGeometry(total).entries > 0
    requires forall g: nat :: Loc(FreshGeometry(total), file, g) == Loc(FreshGeometry(total), previous, g)
    ensures Ok(FreshGeometry(total), file)
    ensures Tidy(FreshGeometry(total), previous) ==> Tidy(FreshGeometry(total), file)
  {
    hide Placed, Parse, Table, FreshGeometry, Made, Loc, Taken;
    var geo := FreshGeometry(total);
    FreshSizes(total);
    MadeFacts(total, previous, descriptor, file);
    assert Allocated(geo, file) == Allocated(geo, previous);
    forall i: nat | geo.HasTable(true, i)
      ensures Table(file, geo.backup[i], geo.entries) == Table(previous, geo.backup[i], geo.entries)
      ensures Table(file, geo.l1[i], geo.entries) == Table(previous, geo.l1[i], geo.entries)
    {
      RemadeTable(total, previous, descriptor, file, true, i);
      RemadeTable(total, previous, descriptor, file, false, i);
    }
  }

  /** The image is new exactly if the file underneath was clean. */
  lemma FreshExactly(total: nat, previous: seq<Sector>, descriptor: seq<Sector>, file: seq<Sector>)
    requires Made(total, previous, descriptor, file) && |descriptor| <= DESC_SECTORS
    ensures Fresh(total, file) <==> Clean(total, previous)
    ensures BackupsBlank(total, previous) ==> BackupsBlank(total, file)
  {
    hide Laid, Made, TableSector, BackupSector, GrainStart, HasRoom;
    MadeFacts(total, previous, descriptor, file);
    forall s | 0 <= s < |file| && (TableSector(total, s) || BackupSector(total, s))
      ensures file[s] == if s < |previous| then previous[s] else Blank()
    {
      LeftAlone(total, previous, descriptor, file, s);
    }
  }

  // ----- when a made image reads as zeros ------------------------------------------

  /** Word k of the area where vmdk_create puts the tables that are read. */
  function StaleWord(total: nat, previous: seq<Sector>, k: nat): nat {
    Entry(previous, RGD_OFFSET + GdSize(total), k)
  }

  /** The sector will hold zeros, or not exist: a directory never does. */
  predicate WillBeBlank(total: nat, previous: seq<Sector>, descriptor: seq<Sector>, s: nat) {
    s >= Length(total, previous) ||
    (!DirectorySector(total, s) && NewSector(total, previous, descriptor, s) == Blank())
  }

  /** The stale entry of grain k, if any, does not make sector w of it show data. */
  predicate Harmless(total: nat, previous: seq<Sector>, descriptor: seq<Sector>, k: nat, w: nat) {
    k < GT_ENTRIES * GtCount(total) && StaleWord(total, previous, k) != 0 ==>
      WillBeBlank(total, previous, descriptor, StaleWord(total, previous, k) + w)
  }

  /** No stale table entry leads to data. */
  ghost predicate NothingStale(total: nat, previous: seq<Sector>, descriptor: seq<Sector>) {
    forall k: nat, w: nat :: w < GRANULARITY ==> Harmless(total, previous, descriptor, k, w)
  }

  /** No stale table entry leads out of the file, where vmdk_read would fail. */
  ghost predicate NothingLost(total: nat, previous: seq<Sector>) {
    forall k: nat :: k < GT_ENTRIES * GtCount(total) && StaleWord(total, previous, k) != 0 ==>
      StaleWord(total, previous, k) + GRANULARITY <= Length(total, previous)
  }

  /** What one sector of vmdk_read gives: None where reading the host file fails. */
  function Reads(geo: Geometry, file: seq<Sector>, s: nat): Option<Sector>
    requires geo.entries > 0 && geo.cluster > 0
  {
    var c := Loc(geo, file, GrainOf(geo, s));
    if c == 0 then Some(Blank()) else
    if c + Within(geo, s) < |file| then Some(file[c + Within(geo, s)]) else None
  }

  /** The grain tables of a made image are the words the file held there. */
  lemma MadeLoc(total: nat, previous: seq<Sector>, descriptor: seq<Sector>, file: seq<Sector>, g: nat)
    requires Made(total, previous, descriptor, file) && |descriptor| <= DESC_SECTORS
    ensures FreshGeometry(total).entries > 0
    ensures Loc(FreshGeometry(total), file, g) ==
            if g < GT_ENTRIES * GtCount(total) then StaleWord(total, previous, g) else 0
  {
    hide Made, GtCount, GdSize, GdOffset, GrainStart;
    FreshSizes(total);
    FreshL1(total);
    var geo := FreshGeometry(total);
    var i, k := g / GT_ENTRIES, g % GT_ENTRIES;
    assert g / WORDS == GT_SIZE * i + k / WORDS && g % WORDS == k % WORDS;
    if g < GT_ENTRIES * GtCount(total) {
      var s := geo.l1[i] + k / WORDS;
      TableSectors(total, false, i);
      MadeFacts(total, previous, descriptor, file);
      LeftAlone(total, previous, descriptor, file, s);
    }
  }

  lemma FreshL1(total: nat)
    ensures |FreshGeometry(total).l1| == GtCount(total)
    ensures forall i :: 0 <= i < GtCount(total) ==>
              FreshGeometry(total).l1[i] == RGD_OFFSET + GdSize(total) + GT_SIZE * i > 0
  {}

  /** A sector holds zeros exactly as foretold. */
  lemma SectorBlank(total: nat, previous: seq<Sector>, descriptor: seq<Sector>, file: seq<Sector>, s: nat)
    requires total < 0x8000_0000 && Made(total, previous, descriptor, file) && 0 < s
    ensures s >= |file| || file[s] == Blank() <==> WillBeBlank(total, previous, descriptor, s)
  {
    hide Laid, Cleared, GtCount, GdSize, GdOffset, GrainStart;
    if s < |file| && DirectorySector(total, s) {
      DirectoryShows(total, file, s);
    }
  }

  lemma DirectoryShows(total: nat, file: seq<Sector>, s: nat)
    requires total < 0x8000_0000 && Laid(total, file) && DirectorySector(total, s) && s < |file|
    ensures file[s] != Blank()
  {
    hide Table;
    DirectorySizes(total);
    var at := if s < RGD_OFFSET + GdSize(total) then RGD_OFFSET else GdOffset(total);
    var first := at + GdSize(total);
    var q := s - at;
    assert WORDS * q < GtCount(total);
    assert Table(file, at, GtCount(total))[WORDS * q] == Entry(file, at, WORDS * q);
    assert Entry(file, at, WORDS * q) == file[s][0];
    assert Table(file, at, GtCount(total)) == Directory(first, GtCount(total));
    assert Blank()[0] == 0;
  }

  /** A made image shows only zeros exactly if no stale table entry leads to data, and
      every read succeeds exactly if none leads out of the file. */
  lemma ReadsZeros(total: nat, previous: seq<Sector>, descriptor: seq<Sector>, file: seq<Sector>)
    requires total < 0x8000_0000 && |descriptor| <= DESC_SECTORS && Made(total, previous, descriptor, file)
    ensures FreshGeometry(total).entries > 0 && FreshGeometry(total).cluster > 0
    ensures (forall s: nat :: Content(FreshGeometry(total), file, s) == Blank()) <==>
            NothingStale(total, previous, descriptor)
    ensures (forall s: nat :: Reads(FreshGeometry(total), file, s).Some?) <==> NothingLost(total, previous)
  {
    hide Made, WillBeBlank, StaleWord, FreshGeometry, Loc, GtCount, Length;
    var geo := FreshGeometry(total);
    FreshSizes(total);
    MadeFacts(total, previous, descriptor, file);
    forall s: nat
      ensures Content(geo, file, s) == Blank() <==>
                Harmless(total, previous, descriptor, s / GRANULARITY, s % GRANULARITY)
      ensures Reads(geo, file, s).Some? <==> InFile(total, previous, s / GRANULARITY, s % GRANULARITY)
    {
      MadeLoc(total, previous, descriptor, file, s / GRANULARITY);
      var c := Loc(geo, file, s / GRANULARITY);
      if c != 0 { SectorBlank(total, previous, descriptor, file, c + s % GRANULARITY); }
    }
    EveryGrain(total, previous, descriptor);
  }

  predicate InFile(total: nat, previous: seq<Sector>, k: nat, w: nat) {
    k < GT_ENTRIES * GtCount(total) && StaleWord(total, previous, k) != 0 ==>
      StaleWord(total, previous, k) + w < Length(total, previous)
  }

  /** Sectors are grains and places in them. */
  lemma EveryGrain(total: nat, previous: seq<Sector>, descriptor: seq<Sector>)
    ensures NothingStale(total, previous, descriptor) <==>
            forall s: nat :: Harmless(total, previous, descriptor, s / GRANULARITY, s % GRANULARITY)
    ensures NothingLost(total, previous) <==> forall s: nat :: InFile(total, previous, s / GRANULARITY, s % GRANULARITY)
  {
    hide Harmless, StaleWord, GtCount, Length;
    if forall s: nat :: Harmless(total, previous, descriptor, s / GRANULARITY, s % GRANULARITY) {
      forall k: nat, w: nat | w < GRANULARITY ensures Harmless(total, previous, descriptor, k, w) {
        DivModUnique(GRANULARITY * k + w, k, w, GRANULARITY);
        var s := GRANULARITY * k + w;
        assert Harmless(total, previous, descriptor, s / GRANULARITY, s % GRANULARITY);
      }
    }
    if forall s: nat :: InFile(total, previous, s / GRANULARITY, s % GRANULARITY) {
      forall k: nat | k < GT_ENTRIES * GtCount(total) && StaleWord(total, previous, k) != 0
        ensures StaleWord(total, previous, k) + GRANULARITY <= Length(total, previous)
      {
        var s := GRANULARITY * k + (GRANULARITY - 1);
        DivModUnique(s, k, GRANULARITY - 1, GRANULARITY);
        assert InFile(total, previous, s / GRANULARITY, s % GRANULARITY);
      }
    }
  }

  /** vmdk_create over a file that held whole sectors, or none. The descriptor text
      is a parameter; at most its 20 sectors. */
  method Create(previous: seq<Sector>, total: nat, descriptor: seq<Sector>) returns (file: seq<Sector>)
    requires total < 0x8000_0000 && |descriptor| <= DESC_SECTORS
    ensures Parse(file) == Some(FreshGeometry(total)) && |FreshGeometry(total).l1| == GtCount(total)
    ensures Made(total, previous, descriptor, file)
    ensures (forall s: nat :: Content(FreshGeometry(total), file, s) == Blank()) <==>
            NothingStale(total, previous, descriptor)
    ensures (forall s: nat :: Reads(FreshGeometry(total), file, s).Some?) <==> NothingLost(total, previous)
    ensures Fresh(total, file) <==> Clean(total, previous)
    ensures Clean(total, previous) ==>
              Ok(FreshGeometry(total), file) && forall s: nat :: Content(FreshGeometry(total), file, s) == Blank()
    ensures Clean(total, previous) && BackupsBlank(total, previous) && |previous| <= GrainStart(total) ==>
              Tidy(FreshGeometry(total), file)
    ensures Ok(FreshGeometry(total), previous) ==>
              && Ok(FreshGeometry(total), file)
              && (Tidy(FreshGeometry(total), previous) ==> Tidy(FreshGeometry(total), file))
              && forall s: nat :: Content(FreshGeometry(total), file, s) == Content(FreshGeometry(total), previous, s)
    ensures forall s :: 0 <= s < total ==> Reaches(FreshGeometry(total), s)
  {
    hide WriteWord, Table, Parse, Ok, Tidy, Content, Reads, Reaches, Fresh, Clean, Made, Laid, Ended, WithHeader,
         NothingStale, NothingLost, BackupsBlank, NewSector;
    DirectorySizes(total);
    PaddingLeft(total);
    file := WithHeader(total, previous);
    file := Ended(file, GrainStart(total));
    ghost var f0 := file;
    StartMade(total, previous);
    file := WriteDirectory(file, RGD_OFFSET, RGD_OFFSET + GdSize(total), GtCount(total));
    ghost var f1 := file;
    file := WriteDirectory(file, GdOffset(total), GdOffset(total) + GdSize(total), GtCount(total));
    ghost var f2 := file;
    file := Put(file, 1, descriptor);
    TableFrame(f1, f2, RGD_OFFSET, GtCount(total));
    TableFrame(f2, file, RGD_OFFSET, GtCount(total));
    TableFrame(f2, file, GdOffset(total), GtCount(total));
    NowLaid(total, f0, file);
    NowMade(total, previous, descriptor, f0, file);
    LaidParse(total, file);
    ReadsZeros(total, previous, descriptor, file);
    FreshExactly(total, previous, descriptor, file);
    if Clean(total, previous) { FreshOk(total, file); }
    if Ok(FreshGeometry(total), previous) { RemadeOk(total, previous, descriptor, file); }
    CoversCapacity(total);
    MadeFacts(total, previous, descriptor, file);
  }

  lemma StartMade(total: nat, previous: seq<Sector>)
    ensures GrainStart(total) > 0
    ensures var f := Ended(WithHeader(total, previous), GrainStart(total));
            && |f| == Length(total, previous) && f[0][..19] == Header(total)[..19]
            && forall s :: 0 < s < |f| ==> f[s] == NewSector(total, previous, [], s)
  {
    hide Header;
    PaddingLeft(total);
  }

  lemma NowLaid(total: nat, before: seq<Sector>, after: seq<Sector>)
    requires 0 < GrainStart(total) <= |before| == |after| && before[0][..19] == Header(total)[..19]
    requires after[0] == before[0]
    requires Table(after, RGD_OFFSET, GtCount(total)) == Directory(RGD_OFFSET + GdSize(total), GtCount(total))
    requires Table(after, GdOffset(total), GtCount(total)) == Directory(GdOffset(total) + GdSize(total), GtCount(total))
    ensures Laid(total, after)
  {
    hide Table, Header, Directory, GtCount, GdSize, GdOffset, GrainStart;
  }

  lemma NowMade(total: nat, previous: seq<Sector>, descriptor: seq<Sector>, before: seq<Sector>, after: seq<Sector>)
    requires Laid(total, after) && |after| == |before| == Length(total, previous)
    requires forall s :: 0 < s < |before| ==> before[s] == NewSector(total, previous, [], s)
    requires forall s :: 0 < s < |before| && !DirectorySector(total, s) ==>
               after[s] == if s <= |descriptor| then descriptor[s - 1] else before[s]
    ensures Made(total, previous, descriptor, after)
  {
    hide Laid, GrainStart, DirectorySector;
  }

  /** Every sector below the capacity can be written. */
  lemma CoversCapacity(total: nat)
    requires total < 0x8000_0000
    ensures forall s :: 0 <= s < total ==> Reaches(FreshGeometry(total), s)
  {
    DirectorySizes(total);
    forall s | 0 <= s < total
      ensures Reaches(FreshGeometry(total), s)
    {
      assert s / GRANULARITY / GT_ENTRIES < GtCount(total);
    }
  }

  // ----- whole runs ---------------------------------------------------------------

  datatype Request = ReadRequest(sector: nat, count: nat) | WriteRequest(sector: nat, data: seq<Sector>)

  function Size(r: Request): nat {
    match r
    case ReadRequest(_, n) => n
    case WriteRequest(_, data) => |data|
  }

  function FlatAfter(d: Flat, r: Request): Flat {
    match r
    case ReadRequest(_, _) => d
    case WriteRequest(s, data) => Patched(d, s, data)
  }

  function FlatState(d: Flat, reqs: seq<Request>): Flat {
    if reqs == [] then d else FlatAfter(FlatState(d, reqs[..|reqs| - 1]), reqs[|reqs| - 1])
  }

  function FlatReply(d: Flat, r: Request): (buf: seq<Sector>)
  {
    match r
    case ReadRequest(s, n) => seq(n, i requires 0 <= i < n => d(s + i))
    case WriteRequest(_, _) => []
  }

  function FlatReplies(d: Flat, reqs: seq<Request>): seq<seq<Sector>> {
    if reqs == [] then [] else
    var n := |reqs| - 1;
    FlatReplies(d, reqs[..n]) + [FlatReply(FlatState(d, reqs[..n]), reqs[n])]
  }

  ghost predicate Reachable(geo: Geometry, r: Request)
    requires geo.entries > 0 && geo.cluster > 0
  {
    && r.sector + Size(r) <= 0x8000_0000
    && forall x: nat :: r.sector <= x < r.sector + Size(r) ==> Reaches(geo, x)
  }

  lemma Written(geo: Geometry, before: seq<Sector>, after: seq<Sector>, d: Flat, r: Request)
    requires geo.entries > 0 && geo.cluster > 0 && r.WriteRequest? && Shows(geo, before, d)
    requires Overwritten(geo, before, after, r.sector, r.data)
    ensures Shows(geo, after, FlatAfter(d, r))
  {
    hide Content;
  }

  /** A client's requests one after the other are answered as a flat disk would. */
  method Serve(dev: Device, reqs: seq<Request>, ghost d: Flat) returns (replies: seq<seq<Sector>>)
    requires dev.Valid() && PowerOfTwo(dev.geo.cluster) && Shows(dev.geo, dev.file, d)
    requires forall i :: 0 <= i < |reqs| ==> Reachable(dev.geo, reqs[i])
    modifies dev
    ensures dev.Valid() && Shows(dev.geo, dev.file, FlatState(d, reqs))
    ensures Tidy(dev.geo, old(dev.file)) ==> Tidy(dev.geo, dev.file)
    ensures replies == FlatReplies(d, reqs)
  {
    hide Ok, Tidy, CacheOk, Content, PowerOfTwo, Reaches, Shows, Overwritten;
    replies := [];
    assert reqs[..0] == [];
    for i := 0 to |reqs|
      invariant dev.Valid() && Shows(dev.geo, dev.file, FlatState(d, reqs[..i]))
      invariant Tidy(dev.geo, old(dev.file)) ==> Tidy(dev.geo, dev.file)
      invariant replies == FlatReplies(d, reqs[..i])
    {
      assert Reachable(dev.geo, reqs[i]);
      assert reqs[..i + 1][..i] == reqs[..i];
      ghost var now := FlatState(d, reqs[..i]);
      match reqs[i] {
        case ReadRequest(s, n) =>
          var buf := dev.Read(s, n);
          Answered(dev.geo, dev.file, now, reqs[i], buf);
          replies := replies + [buf];
        case WriteRequest(s, data) =>
          ghost var before := dev.file;
          ghost var done;
          var ok;
          ok, done := dev.Write(s, data);
          assert done == |data| && data[..done] == data;
          Written(dev.geo, before, dev.file, now, reqs[i]);
          replies := replies + [[]];
      }
    }
    assert reqs[..|reqs|] == reqs;
  }

  lemma Answered(geo: Geometry, file: seq<Sector>, d: Flat, r: Request, buf: seq<Sector>)
    requires geo.entries > 0 && geo.cluster > 0 && r.ReadRequest? && Shows(geo, file, d)
    requires |buf| == r.count && forall i :: 0 <= i < r.count ==> buf[i] == Content(geo, file, r.sector + i)
    ensures buf == FlatReply(d, r)
  {
    hide Content;
  }

  /** Every run of reads and writes within the capacity of a new image answers
      like a flat disk that starts zero-filled. */
  method CreateAndServe(previous: seq<Sector>, total: nat, descriptor: seq<Sector>, reqs: seq<Request>)
    returns (replies: seq<seq<Sector>>)
    requires total < 0x8000_0000 && |descriptor| <= DESC_SECTORS && Clean(total, previous)
    requires forall i :: 0 <= i < |reqs| ==> reqs[i].sector + Size(reqs[i]) <= total
    ensures replies == FlatReplies(BlankDisk(), reqs)
  {
    hide Ok, Tidy, Content, Reads, PowerOfTwo, Reaches, Parse, FreshGeometry, Clean, Made, Fresh, FlatReplies,
         NothingStale, NothingLost;
    var image := Create(previous, total, descriptor);
    FreshSizes(total);
    var dev := new Device(image);
    Granularity();
    replies := Serve(dev, reqs, BlankDisk());
  }

  /** Made over an image of the same capacity, it answers with what that image held. */
  method CreateOverAndServe(previous: seq<Sector>, total: nat, descriptor: seq<Sector>, reqs: seq<Request>)
    returns (replies: seq<seq<Sector>>)
    requires total < 0x8000_0000 && |descriptor| <= DESC_SECTORS && Ok(FreshGeometry(total), previous)
    requires forall i :: 0 <= i < |reqs| ==> reqs[i].sector + Size(reqs[i]) <= total
    ensures replies == FlatReplies(View(FreshGeometry(total), previous), reqs)
  {
    hide Ok, Tidy, Content, Reads, PowerOfTwo, Reaches, Parse, FreshGeometry, Clean, Made, Fresh, FlatReplies,
         NothingStale, NothingLost;
    var image := Create(previous, total, descriptor);
    FreshSizes(total);
    var dev := new Device(image);
    Granularity();
    Viewed(FreshGeometry(total), previous);
    replies := Serve(dev, reqs, View(FreshGeometry(total), previous));
  }

  /** Create an image, write its first sector, create it again: the sector is still
      there, though a new image should read as zeros. */
  method CreateTwice(total: nat, x: Sector) returns (buf: seq<Sector>)
    requires 0 < total < 0x8000_0000
    ensures buf == [x]
  {
    hide Ok, Tidy, Content, Reads, PowerOfTwo, Reaches, Parse, FreshGeometry, Clean, Made, Fresh, Stores, View, Shows,
         NothingStale, NothingLost;
    NothingIsClean(total);
    var image := Create([], total, []);
    FreshSizes(total);
    Granularity();
    var dev := new Device(image);
    var ok;
    ghost var done;
    ok, done := dev.Write(0, [x]);
    assert Content(dev.geo, dev.file, 0) == x;
    var again := Create(dev.file, total, []);
    var redo := new Device(again);
    buf := redo.Read(0, 1);
  }

  lemma NothingIsClean(total: nat)
    requires total < 0x8000_0000
    ensures Clean(total, [])
  {
    FreshPlaced(total);
    FreshSizes(total);
  }

  lemma FreshSizes(total: nat)
    ensures FreshGeometry(total).cluster == GRANULARITY && FreshGeometry(total).entries == GT_ENTRIES
    ensures FreshGeometry(total).grain == GrainStart(total)
    ensures |FreshGeometry(total).l1| == |FreshGeometry(total).backup| == GtCount(total)
  {}

  lemma Granularity()
    ensures PowerOfTwo(GRANULARITY)
  {
    assert PowerOfTwo(2) && PowerOfTwo(4) && PowerOfTwo(8) && PowerOfTwo(16) && PowerOfTwo(32) && PowerOfTwo(64);
  }
}
