/** The sparse VMDK image of utils/dfs/vmdk.c. An image file is a sequence of
    sectors, a sector is 128 little-endian 32-bit words, and all positions are
    counted in sectors. A directory of table offsets (the L1 table) leads to
    grain tables (L2 tables), whose entries are the positions of clusters. */
module VmdkImage {

  import opened Arith
  import opened Basics

  const WORDS := 128
  const WORD_LIMIT: nat := 0x1_0000_0000
  const VMDK4_MAGIC: nat := 0x564D444B

  type Sector = s: seq<nat> | |s| == WORDS witness ZeroWords(WORDS)

  function ZeroWords(n: nat): (r: seq<nat>)
    ensures |r| == n && forall i :: 0 <= i < n ==> r[i] == 0
  {
    seq(n, _ => 0)
  }

  function Blank(): Sector { ZeroWords(WORDS) }

  function Zeros(n: nat): (r: seq<Sector>)
    ensures |r| == n && forall i :: 0 <= i < n ==> r[i] == Blank()
  {
    seq(n, _ => Blank())
  }

  // ----- words, tables -------------------------------------------------

  /** Word k of the table that starts at sector t. */
  function Entry(file: seq<Sector>, t: nat, k: nat): nat {
    if t + k / WORDS < |file| then file[t + k / WORDS][k % WORDS] else 0
  }

  function Table(file: seq<Sector>, t: nat, n: nat): (r: seq<nat>)
    ensures |r| == n && forall k :: 0 <= k < n ==> r[k] == Entry(file, t, k)
  {
    seq<nat>(n, k requires 0 <= k < n => Entry(file, t, k))
  }

  /** The sectors that n words take. */
  function Span(n: nat): nat {
    (n + WORDS - 1) / WORDS
  }

  function WriteWord(file: seq<Sector>, t: nat, k: nat, v: nat): (r: seq<Sector>)
    ensures |r| == |file|
  {
    if t + k / WORDS < |file| then file[t + k / WORDS := file[t + k / WORDS][k % WORDS := v]] else file
  }

  predicate Apart(t: nat, m: nat, u: nat, n: nat) {
    t + m <= u || u + n <= t
  }

  lemma EntryWritten(file: seq<Sector>, t: nat, k: nat, v: nat, u: nat, j: nat, n: nat)
    requires k < n && j < n && t + Span(n) <= |file|
    requires t == u || Apart(t, Span(n), u, Span(n))
    ensures Entry(WriteWord(file, t, k, v), u, j) == if t == u && k == j then v else Entry(file, u, j)
  {}

  lemma SectorWritten(file: seq<Sector>, t: nat, k: nat, v: nat, s: nat, n: nat)
    requires k < n && t + Span(n) <= |file| && s < |file|
    requires s < t || t + Span(n) <= s
    ensures WriteWord(file, t, k, v)[s] == file[s]
  {}

  /** Tables depend only on the sectors they span. */
  lemma TableFrame(f: seq<Sector>, f': seq<Sector>, t: nat, n: nat)
    requires t + Span(n) <= |f| && t + Span(n) <= |f'|
    requires forall s :: t <= s < t + Span(n) ==> f'[s] == f[s]
    ensures Table(f', t, n) == Table(f, t, n)
  {
    forall k | 0 <= k < n
      ensures Entry(f', t, k) == Entry(f, t, k)
    {
      assert f'[t + k / WORDS] == f[t + k / WORDS];
    }
  }

  // ----- geometry and header --------------------------------------------

  /** What vmdk_open takes from the file. The first cluster's position (grain)
      is in the header too, though nothing reads it back. */
  datatype Geometry = Geometry(cluster: nat, entries: nat, l1: seq<nat>, backup: seq<nat>,
                               rgd: nat, gd: nat, grain: nat)
  {
    predicate Backed() { gd != 0 }

    predicate Mapped(i: nat) { i < |l1| && l1[i] != 0 }

    function TableAt(second: bool, i: nat): nat
      requires i < |l1| && |backup| == |l1|
    {
      if second then backup[i] else l1[i]
    }

    predicate HasTable(second: bool, i: nat) {
      |backup| == |l1| && Mapped(i) && (second ==> Backed())
    }

    function TableSpan(): nat { Span(entries) }

    function DirSpan(): nat { Span(|l1|) }
  }

  function Wide(lo: nat, hi: nat): nat {
    lo + WORD_LIMIT * hi
  }

  /** The L1 size that vmdk_open computes; the capacity is cast to int first. */
  function L1Size(capacity: nat, entrySectors: nat): nat
    requires entrySectors > 0
  {
    var total := if capacity % WORD_LIMIT < 0x8000_0000 then capacity % WORD_LIMIT
        else capacity % WORD_LIMIT - WORD_LIMIT;
    TruncDiv(total + entrySectors - 1, entrySectors) % WORD_LIMIT
  }

  /** The tables cover every sector of the disk, and the last one is needed, as long
      as the capacity is an int. */
  lemma TablesCover(capacity: nat, entrySectors: nat)
    requires capacity < 0x8000_0000 && 0 < entrySectors < WORD_LIMIT
    ensures var n := L1Size(capacity, entrySectors);
            && (n - 1) * entrySectors < capacity <= n * entrySectors
            && forall s :: 0 <= s < capacity ==> s / entrySectors < n
  {
    hide L1Size, CeilDiv;
    var n := CeilDiv(capacity, entrySectors);
    CeilDivChar(capacity, entrySectors, n);
    CoverLines(n, entrySectors, capacity);
    L1SizeIs(capacity, entrySectors, n);
    forall s | 0 <= s < capacity ensures s / entrySectors < n {
      IndexBelow(s, entrySectors, n);
    }
  }

  lemma L1SizeIs(capacity: nat, d: nat, n: nat)
    requires capacity < 0x8000_0000 && d > 0 && n == CeilDiv(capacity, d) && n <= capacity
    ensures L1Size(capacity, d) == n
  {}

  lemma IndexBelow(s: nat, d: nat, n: nat)
    requires d > 0 && s < n * d
    ensures s / d < n
  {
    DivFacts(s, d);
    if s / d >= n { DivMonotoneMul(s / d, n, d); }
  }

  lemma CoverLines(n: nat, d: nat, capacity: nat)
    requires d > 0 && n * d < capacity + d
    ensures (n - 1) * d == n * d - d && n <= capacity
  {
    if n > capacity { MulLess(capacity, n, d); }
  }

  /** vmdk_open on a version 4 image: None where it returns -1. */
  function Parse(file: seq<Sector>): Option<Geometry> {
    if |file| == 0 || file[0][0] != VMDK4_MAGIC then None else
    var h := file[0];
    var cluster := h[5];
    var entries := h[11];
    var entrySectors := entries * cluster % WORD_LIMIT;
    var rgd, gd := Wide(h[12], h[13]), Wide(h[14], h[15]);
    if entrySectors <= 0 then None else
    var size := L1Size(Wide(h[3], h[4]), entrySectors);
    if size > 0 && rgd + Span(size) > |file| then None else
    if gd != 0 && size > 0 && gd + Span(size) > |file| then None else
    Some(Geometry(cluster, entries, Table(file, rgd, size),
                  if gd != 0 then Table(file, gd, size) else ZeroWords(size),
                  rgd, gd, Wide(h[16], h[17])))
  }

  lemma ParseFrame(f: seq<Sector>, f': seq<Sector>, geo: Geometry)
    requires Parse(f) == Some(geo) && |f| <= |f'|
    requires f'[0] == f[0]
    requires forall s :: geo.rgd <= s < geo.rgd + geo.DirSpan() && s < |f| ==> f'[s] == f[s]
    requires geo.Backed() ==> forall s :: geo.gd <= s < geo.gd + geo.DirSpan() && s < |f| ==> f'[s] == f[s]
    ensures Parse(f') == Some(geo)
  {
    var size := |geo.l1|;
    if size > 0 {
      TableFrame(f, f', geo.rgd, size);
      if geo.Backed() { TableFrame(f, f', geo.gd, size); }
    } else {
      assert Table(f', geo.rgd, 0) == Table(f, geo.rgd, 0) == [];
      assert Table(f', geo.gd, 0) == Table(f, geo.gd, 0) == [];
    }
  }

  /** An opened image has a directory entry for every sector of its capacity, and no
      more than it takes. */
  lemma ParsedCovers(f: seq<Sector>, geo: Geometry)
    requires Parse(f) == Some(geo) && Wide(f[0][3], f[0][4]) < 0x8000_0000
    ensures var n, per := Wide(f[0][3], f[0][4]), geo.entries * geo.cluster % WORD_LIMIT;
            && per > 0 && |geo.backup| == |geo.l1| && (|geo.l1| - 1) * per < n <= |geo.l1| * per
            && forall s :: 0 <= s < n ==> s / per < |geo.l1|
  {
    hide L1Size, Span, Table;
    var n, per := Wide(f[0][3], f[0][4]), geo.entries * geo.cluster % WORD_LIMIT;
    TablesCover(n, per);
  }

  // ----- placement of the metadata ----------------------------------------

  ghost predicate Sized(geo: Geometry) {
    && geo.cluster > 0 && geo.entries > 0 && geo.entries * geo.cluster < WORD_LIMIT
    && |geo.backup| == |geo.l1|
    && geo.grain + geo.cluster * (geo.entries * |geo.l1|) <= WORD_LIMIT
    && 0 < geo.rgd && geo.rgd + geo.DirSpan() <= geo.grain
    && (geo.Backed() ==> geo.gd + geo.DirSpan() <= geo.grain)
  }

  /** A table lies among the metadata, off the header and both directories, and
      its byte offset does not overflow 32 bits. */
  predicate TablePlaced(geo: Geometry, t: nat) {
    && 0 < t < 0x80_0000 && t + geo.TableSpan() <= geo.grain
    && Apart(t, geo.TableSpan(), geo.rgd, geo.DirSpan())
    && (geo.Backed() ==> Apart(t, geo.TableSpan(), geo.gd, geo.DirSpan()))
  }

  ghost predicate Placed(geo: Geometry) {
    && Sized(geo)
    && (forall b, i :: geo.HasTable(b, i) ==> TablePlaced(geo, geo.TableAt(b, i)))
    && (forall b, i, c, j :: geo.HasTable(b, i) && geo.HasTable(c, j) && (b != c || i != j) ==>
          Apart(geo.TableAt(b, i), geo.TableSpan(), geo.TableAt(c, j), geo.TableSpan()))
  }

  lemma TableIsPlaced(geo: Geometry, b: bool, i: nat)
    requires Placed(geo) && geo.HasTable(b, i)
    ensures TablePlaced(geo, geo.TableAt(b, i))
  {}

  lemma TablesApart(geo: Geometry, b: bool, i: nat, c: bool, j: nat)
    requires Placed(geo) && geo.HasTable(b, i) && geo.HasTable(c, j) && (b != c || i != j)
    ensures Apart(geo.TableAt(b, i), geo.TableSpan(), geo.TableAt(c, j), geo.TableSpan())
  {}

  // ----- grains -------------------------------------------------------------

  function GrainOf(geo: Geometry, s: nat): nat
    requires geo.cluster > 0
  {
    s / geo.cluster
  }

  function Within(geo: Geometry, s: nat): (r: nat)
    requires geo.cluster > 0
    ensures r < geo.cluster
  {
    s % geo.cluster
  }

  function L1Index(geo: Geometry, g: nat): nat
    requires geo.entries > 0
  {
    g / geo.entries
  }

  function L2Index(geo: Geometry, g: nat): (r: nat)
    requires geo.entries > 0
    ensures r < geo.entries
  {
    g % geo.entries
  }

  lemma GrainIndices(geo: Geometry, g: nat, h: nat)
    requires geo.entries > 0 && L1Index(geo, g) == L1Index(geo, h) && L2Index(geo, g) == L2Index(geo, h)
    ensures g == h
  {
    DivFacts(g, geo.entries);
    DivFacts(h, geo.entries);
  }

  lemma GrainBound(geo: Geometry, g: nat)
    requires geo.entries > 0
    ensures L1Index(geo, g) < |geo.l1| <==> g < geo.entries * |geo.l1|
  {
    DivFacts(g, geo.entries);
    var q := g / geo.entries;
    if q < |geo.l1| {
      MulLess(q, |geo.l1|, geo.entries);
    } else {
      DivMonotoneMul(q, |geo.l1|, geo.entries);
    }
  }

  lemma DivMonotoneMul(q: nat, n: nat, d: nat)
    requires n <= q
    ensures d * n <= q * d
  {
    assert (q - n) * d >= 0;
  }

  /** The cluster that holds grain g, or 0. */
  function Loc(geo: Geometry, file: seq<Sector>, g: nat): nat
    requires geo.entries > 0
  {
    if geo.Mapped(L1Index(geo, g)) then Entry(file, geo.l1[L1Index(geo, g)], L2Index(geo, g)) else 0
  }

  /** The sector that a reader of the virtual disk sees. */
  function Content(geo: Geometry, file: seq<Sector>, s: nat): Sector
    requires geo.entries > 0 && geo.cluster > 0
  {
    var c := Loc(geo, file, GrainOf(geo, s));
    if c == 0 || c + Within(geo, s) >= |file| then Blank() else file[c + Within(geo, s)]
  }

  ghost function Allocated(geo: Geometry, file: seq<Sector>): set<nat>
    requires geo.entries > 0
  {
    set g: nat | g < geo.entries * |geo.l1| && Loc(geo, file, g) != 0
  }

  ghost predicate Agree(geo: Geometry, file: seq<Sector>) {
    geo.Backed() ==> forall i: nat :: geo.HasTable(true, i) ==>
      Table(file, geo.backup[i], geo.entries) == Table(file, geo.l1[i], geo.entries)
  }

  ghost predicate Clusters(geo: Geometry, file: seq<Sector>)
    requires geo.entries > 0
  {
    && (forall g: nat :: Loc(geo, file, g) != 0 ==>
          geo.grain <= Loc(geo, file, g) && Loc(geo, file, g) + geo.cluster <= |file|)
    && (forall g: nat, h: nat :: g != h && Loc(geo, file, g) != 0 && Loc(geo, file, h) != 0 ==>
          Apart(Loc(geo, file, g), geo.cluster, Loc(geo, file, h), geo.cluster))
  }

  /** What n more clusters take. */
  function Taken(geo: Geometry, n: int): int {
    geo.cluster * n
  }

  /** The file can hold all the clusters it still lacks, at offsets of 32 bits. */
  ghost predicate Roomy(geo: Geometry, file: seq<Sector>)
    requires geo.entries > 0
  {
    && geo.grain <= |file|
    && |file| + Taken(geo, geo.entries * |geo.l1| - |Allocated(geo, file)|) <= WORD_LIMIT
  }

  /** The metadata invariant of an image. */
  ghost predicate Ok(geo: Geometry, file: seq<Sector>) {
    Parse(file) == Some(geo) && Placed(geo) && Clusters(geo, file) && Roomy(geo, file)
  }

  /** An image without waste: both tables agree, and the file is as long as its
      metadata and clusters. */
  ghost predicate Tidy(geo: Geometry, file: seq<Sector>) {
    geo.entries > 0 && Agree(geo, file) && |file| == geo.grain + Taken(geo, |Allocated(geo, file)|)
  }

  lemma OkSized(geo: Geometry, file: seq<Sector>)
    requires Ok(geo, file)
    ensures Sized(geo) && Placed(geo) && geo.cluster > 0 && geo.entries > 0 && geo.grain <= |file| && |file| > 0
    ensures |geo.l1| == |geo.backup|
  {}

  lemma ClusterAt(geo: Geometry, file: seq<Sector>, g: nat)
    requires Ok(geo, file) && geo.entries > 0 && Loc(geo, file, g) != 0
    ensures geo.grain <= Loc(geo, file, g) && Loc(geo, file, g) + geo.cluster <= |file|
  {}

  lemma ClustersApart(geo: Geometry, file: seq<Sector>, g: nat, h: nat)
    requires Ok(geo, file) && geo.entries > 0 && Loc(geo, file, g) != 0 && Loc(geo, file, h) != 0 && g != h
    ensures Apart(Loc(geo, file, g), geo.cluster, Loc(geo, file, h), geo.cluster)
  {}

  // ----- allocating a cluster ------------------------------------------------

  function Extended(geo: Geometry, file: seq<Sector>): seq<Sector> {
    file + Zeros(geo.cluster)
  }

  /** A new cluster at the end of the file, entered in the table and its copy. */
  function WithCluster(geo: Geometry, file: seq<Sector>, i: nat, k: nat): seq<Sector>
    requires geo.HasTable(false, i)
  {
    var v := |file| % WORD_LIMIT;
    var f := WriteWord(Extended(geo, file), geo.l1[i], k, v);
    if geo.Backed() then WriteWord(f, geo.backup[i], k, v) else f
  }

  /** Inside a placed geometry, a word written to one table shows only there. */
  lemma LocWritten(geo: Geometry, file: seq<Sector>, b: bool, i: nat, k: nat, v: nat, h: nat)
    requires Placed(geo) && geo.HasTable(b, i) && k < geo.entries && geo.grain <= |file|
    ensures Loc(geo, WriteWord(file, geo.TableAt(b, i), k, v), h) ==
            if !b && L1Index(geo, h) == i && L2Index(geo, h) == k then v else Loc(geo, file, h)
  {
    hide L1Index, L2Index, Entry, WriteWord;
    TableIsPlaced(geo, b, i);
    var j := L1Index(geo, h);
    if geo.Mapped(j) {
      if b || i != j { TablesApart(geo, b, i, false, j); }
      EntryWritten(file, geo.TableAt(b, i), k, v, geo.l1[j], L2Index(geo, h), geo.entries);
    } else {
      EntryWritten(file, geo.TableAt(b, i), k, v, geo.TableAt(b, i), k, geo.entries);
    }
  }

  lemma LocExtended(geo: Geometry, file: seq<Sector>, more: seq<Sector>, h: nat)
    requires Placed(geo) && geo.grain <= |file|
    ensures Loc(geo, file + more, h) == Loc(geo, file, h)
  {
    var j := L1Index(geo, h);
    if geo.Mapped(j) {
      TableIsPlaced(geo, false, j);
      assert geo.l1[j] + L2Index(geo, h) / WORDS < |file|;
    }
  }

  lemma WithClusterFits(geo: Geometry, file: seq<Sector>, i: nat, k: nat)
    requires Placed(geo) && geo.HasTable(false, i) && k < geo.entries && geo.grain <= |file|
    ensures |WithCluster(geo, file, i, k)| == |file| + geo.cluster
  {
    TableIsPlaced(geo, false, i);
    if geo.Backed() { TableIsPlaced(geo, true, i); }
  }

  lemma LocWithCluster(geo: Geometry, file: seq<Sector>, i: nat, k: nat, h: nat)
    requires Placed(geo) && geo.HasTable(false, i) && k < geo.entries && geo.grain <= |file|
    ensures Loc(geo, WithCluster(geo, file, i, k), h) ==
            if L1Index(geo, h) == i && L2Index(geo, h) == k then |file| % WORD_LIMIT else Loc(geo, file, h)
  {
    hide L1Index, L2Index, Entry, WriteWord, Loc, Placed;
    WithClusterFits(geo, file, i, k);
    var v := |file| % WORD_LIMIT;
    LocExtended(geo, file, Zeros(geo.cluster), h);
    LocWritten(geo, Extended(geo, file), false, i, k, v, h);
    if geo.Backed() {
      LocWritten(geo, WriteWord(Extended(geo, file), geo.l1[i], k, v), true, i, k, v, h);
    }
  }

  /** Only the two tables change below the end of the file. */
  lemma SectorsWithCluster(geo: Geometry, file: seq<Sector>, i: nat, k: nat, s: nat)
    requires Placed(geo) && geo.HasTable(false, i) && k < geo.entries && geo.grain <= |file| && s < |file| + geo.cluster
    requires Apart(geo.l1[i], geo.TableSpan(), s, 1)
    requires geo.Backed() ==> Apart(geo.backup[i], geo.TableSpan(), s, 1)
    ensures |WithCluster(geo, file, i, k)| == |file| + geo.cluster
    ensures WithCluster(geo, file, i, k)[s] == if s < |file| then file[s] else Blank()
  {
    hide WriteWord, Placed;
    WithClusterFits(geo, file, i, k);
    TableIsPlaced(geo, false, i);
    var v := |file| % WORD_LIMIT;
    SectorWritten(Extended(geo, file), geo.l1[i], k, v, s, geo.entries);
    if geo.Backed() {
      TableIsPlaced(geo, true, i);
      SectorWritten(WriteWord(Extended(geo, file), geo.l1[i], k, v), geo.backup[i], k, v, s, geo.entries);
    }
  }

  /** Table (c, j) after the step. */
  lemma TableWithCluster(geo: Geometry, file: seq<Sector>, i: nat, k: nat, c: bool, j: nat)
    requires Placed(geo) && geo.HasTable(false, i) && geo.HasTable(c, j) && k < geo.entries && geo.grain <= |file|
    ensures Table(WithCluster(geo, file, i, k), geo.TableAt(c, j), geo.entries) ==
            if i == j then Table(file, geo.TableAt(c, j), geo.entries)[k := |file| % WORD_LIMIT]
            else Table(file, geo.TableAt(c, j), geo.entries)
  {
    hide WriteWord, Placed, Entry;
    WithClusterFits(geo, file, i, k);
    TableIsPlaced(geo, false, i);
    TableIsPlaced(geo, c, j);
    if c || i != j { TablesApart(geo, false, i, c, j); }
    var v := |file| % WORD_LIMIT;
    var f := Extended(geo, file);
    var f1 := WriteWord(f, geo.l1[i], k, v);
    if geo.Backed() {
      TableIsPlaced(geo, true, i);
      if !c || i != j { TablesApart(geo, true, i, c, j); }
    }
    forall m | 0 <= m < geo.entries
      ensures Table(WithCluster(geo, file, i, k), geo.TableAt(c, j), geo.entries)[m] ==
              if i == j && m == k then v else Entry(file, geo.TableAt(c, j), m)
    {
      EntryExtended(file, Zeros(geo.cluster), geo.TableAt(c, j), m, geo.entries);
      EntryWritten(f, geo.l1[i], k, v, geo.TableAt(c, j), m, geo.entries);
      if geo.Backed() {
        EntryWritten(f1, geo.backup[i], k, v, geo.TableAt(c, j), m, geo.entries);
      }
    }
  }

  lemma EntryExtended(file: seq<Sector>, more: seq<Sector>, t: nat, k: nat, n: nat)
    requires k < n && t + Span(n) <= |file|
    ensures Entry(file + more, t, k) == Entry(file, t, k)
  {}

  lemma FreeSlotLeft(a: set<nat>, n: nat, g: nat)
    requires g < n && g !in a && forall x :: x in a ==> x < n
    ensures |a| < n
  {
    SubsetSize(a + {g}, Below(n));
  }

  /** While a grain has no cluster there is room for one. */
  lemma RoomForCluster(geo: Geometry, file: seq<Sector>, g: nat)
    requires Ok(geo, file) && geo.entries > 0 && g < geo.entries * |geo.l1| && Loc(geo, file, g) == 0
    ensures |file| + geo.cluster <= WORD_LIMIT && |file| % WORD_LIMIT == |file|
    ensures |Allocated(geo, file)| < geo.entries * |geo.l1|
  {
    hide Loc, Parse, Placed, Clusters, Taken;
    OkSized(geo, file);
    FreeSlotLeft(Allocated(geo, file), geo.entries * |geo.l1|, g);
    TakenSteps(geo, geo.entries * |geo.l1| - |Allocated(geo, file)|);
  }

  lemma TakenSteps(geo: Geometry, n: int)
    ensures Taken(geo, n) == Taken(geo, n - 1) + geo.cluster
    ensures n >= 1 ==> Taken(geo, n) >= geo.cluster
  {
    if n >= 1 { assert geo.cluster * (n - 1) >= 0; }
  }

  ghost predicate Fillable(geo: Geometry, file: seq<Sector>, g: nat) {
    && Ok(geo, file) && geo.entries > 0
    && geo.HasTable(false, L1Index(geo, g)) && Loc(geo, file, g) == 0
  }

  function Filled(geo: Geometry, file: seq<Sector>, g: nat): seq<Sector>
    requires geo.entries > 0 && geo.HasTable(false, L1Index(geo, g))
  {
    WithCluster(geo, file, L1Index(geo, g), L2Index(geo, g))
  }

  lemma FilledFits(geo: Geometry, file: seq<Sector>, g: nat)
    requires Fillable(geo, file, g)
    ensures |Filled(geo, file, g)| == |file| + geo.cluster <= WORD_LIMIT
    ensures g < geo.entries * |geo.l1| && Placed(geo) && Sized(geo) && geo.grain <= |file|
    ensures |file| % WORD_LIMIT == |file|
  {
    OkSized(geo, file);
    GrainBound(geo, g);
    WithClusterFits(geo, file, L1Index(geo, g), L2Index(geo, g));
    RoomForCluster(geo, file, g);
  }

  /** Every other grain keeps its cluster. */
  lemma LocFilled(geo: Geometry, file: seq<Sector>, g: nat, h: nat)
    requires Fillable(geo, file, g)
    ensures Loc(geo, Filled(geo, file, g), h) == if h == g then |file| else Loc(geo, file, h)
  {
    hide Ok, Placed, WithCluster, Loc, L1Index, L2Index;
    FilledFits(geo, file, g);
    LocWithCluster(geo, file, L1Index(geo, g), L2Index(geo, g), h);
    if h != g && L1Index(geo, h) == L1Index(geo, g) && L2Index(geo, h) == L2Index(geo, g) {
      GrainIndices(geo, g, h);
    }
  }

  lemma FilledClusters(geo: Geometry, file: seq<Sector>, g: nat)
    requires Fillable(geo, file, g)
    ensures Clusters(geo, Filled(geo, file, g))
    ensures Allocated(geo, Filled(geo, file, g)) == Allocated(geo, file) + {g} && g !in Allocated(geo, file)
  {
    hide Ok, Placed, Filled, Loc, L1Index, L2Index;
    FilledFits(geo, file, g);
    var f := Filled(geo, file, g);
    forall h: nat
      ensures Loc(geo, f, h) == if h == g then |file| else Loc(geo, file, h)
      ensures Loc(geo, f, h) != 0 ==> geo.grain <= Loc(geo, f, h) && Loc(geo, f, h) + geo.cluster <= |f|
      ensures Loc(geo, file, h) != 0 ==> Loc(geo, file, h) + geo.cluster <= |file|
    {
      LocFilled(geo, file, g, h);
      if Loc(geo, file, h) != 0 { ClusterAt(geo, file, h); }
    }
    forall h: nat, j: nat | h != j && Loc(geo, f, h) != 0 && Loc(geo, f, j) != 0
      ensures Apart(Loc(geo, f, h), geo.cluster, Loc(geo, f, j), geo.cluster)
    {
      if h != g && j != g { ClustersApart(geo, file, h, j); }
    }
  }

  lemma FilledAgree(geo: Geometry, file: seq<Sector>, g: nat)
    requires Fillable(geo, file, g) && Agree(geo, file)
    ensures Agree(geo, Filled(geo, file, g))
  {
    hide Ok, Placed, WithCluster, Loc, L1Index, L2Index, Table;
    FilledFits(geo, file, g);
    if geo.Backed() {
      forall j: nat | geo.HasTable(true, j)
        ensures Table(Filled(geo, file, g), geo.backup[j], geo.entries) ==
                Table(Filled(geo, file, g), geo.l1[j], geo.entries)
      {
        TableWithCluster(geo, file, L1Index(geo, g), L2Index(geo, g), false, j);
        TableWithCluster(geo, file, L1Index(geo, g), L2Index(geo, g), true, j);
      }
    }
  }

  /** Allocating a cluster keeps an image tidy. */
  lemma FilledTidy(geo: Geometry, file: seq<Sector>, g: nat)
    requires Fillable(geo, file, g) && Tidy(geo, file)
    ensures Tidy(geo, Filled(geo, file, g))
  {
    hide Ok, Filled, Agree, Allocated, Taken;
    FilledFits(geo, file, g);
    FilledAgree(geo, file, g);
    FilledClusters(geo, file, g);
    TakenSteps(geo, |Allocated(geo, file)| + 1);
  }

  lemma FilledParse(geo: Geometry, file: seq<Sector>, g: nat)
    requires Fillable(geo, file, g)
    ensures Parse(Filled(geo, file, g)) == Some(geo)
  {
    hide Placed, WithCluster, Loc, L1Index, L2Index, Parse, Table;
    FilledFits(geo, file, g);
    var i, k := L1Index(geo, g), L2Index(geo, g);
    var f := Filled(geo, file, g);
    TableIsPlaced(geo, false, i);
    if geo.Backed() { TableIsPlaced(geo, true, i); }
    SectorsWithCluster(geo, file, i, k, 0);
    forall s | geo.rgd <= s < geo.rgd + geo.DirSpan()
      ensures f[s] == file[s]
    {
      SectorsWithCluster(geo, file, i, k, s);
    }
    if geo.Backed() {
      forall s | geo.gd <= s < geo.gd + geo.DirSpan()
        ensures f[s] == file[s]
      {
        SectorsWithCluster(geo, file, i, k, s);
      }
    }
    ParseFrame(file, f, geo);
  }

  /** Allocating a cluster keeps the metadata invariant. */
  lemma FilledOk(geo: Geometry, file: seq<Sector>, g: nat)
    requires Fillable(geo, file, g)
    ensures Ok(geo, Filled(geo, file, g))
  {
    hide Filled, Placed, WithCluster, Loc, L1Index, L2Index, Parse, Table, Clusters, Allocated, Taken;
    FilledFits(geo, file, g);
    FilledParse(geo, file, g);
    FilledClusters(geo, file, g);
    var a := Allocated(geo, file);
    assert |a + {g}| == |a| + 1;
    TakenSteps(geo, geo.entries * |geo.l1| - |a|);
  }

  /** ... and the virtual disk: a new cluster reads as zeros, like the hole it
      replaces. */
  lemma FilledContent(geo: Geometry, file: seq<Sector>, g: nat, s: nat)
    requires Fillable(geo, file, g)
    ensures geo.cluster > 0 && Content(geo, Filled(geo, file, g), s) == Content(geo, file, s)
  {
    hide Ok, Placed, WithCluster, Loc, L1Index, L2Index, GrainOf, Within;
    FilledFits(geo, file, g);
    var h, w := GrainOf(geo, s), Within(geo, s);
    var i, k := L1Index(geo, g), L2Index(geo, g);
    LocFilled(geo, file, g, h);
    TableIsPlaced(geo, false, i);
    if geo.Backed() { TableIsPlaced(geo, true, i); }
    if h == g {
      SectorsWithCluster(geo, file, i, k, |file| + w);
    } else if Loc(geo, file, h) != 0 {
      ClusterAt(geo, file, h);
      SectorsWithCluster(geo, file, i, k, Loc(geo, file, h) + w);
    }
  }

  // ----- writing data ---------------------------------------------------------

  function Put(file: seq<Sector>, p: nat, data: seq<Sector>): (r: seq<Sector>)
    requires p + |data| <= |file|
    ensures |r| == |file|
    ensures forall i :: 0 <= i < |file| ==> r[i] == if p <= i < p + |data| then data[i - p] else file[i]
  {
    file[..p] + data + file[p + |data|..]
  }

  lemma SameGrain(geo: Geometry, s: nat, i: nat)
    requires geo.cluster > 0 && Within(geo, s) + i < geo.cluster
    ensures GrainOf(geo, s + i) == GrainOf(geo, s) && Within(geo, s + i) == Within(geo, s) + i
  {
    DivModUnique(s + i, s / geo.cluster, s % geo.cluster + i, geo.cluster);
  }

  lemma GrainOffset(geo: Geometry, s: nat, x: nat)
    requires geo.cluster > 0 && GrainOf(geo, s) == GrainOf(geo, x)
    ensures x - s == Within(geo, x) - Within(geo, s)
  {
    DivFacts(s, geo.cluster);
    DivFacts(x, geo.cluster);
  }

  ghost predicate Writable(geo: Geometry, file: seq<Sector>, s: nat, data: seq<Sector>) {
    && Ok(geo, file) && geo.entries > 0 && geo.cluster > 0
    && Loc(geo, file, GrainOf(geo, s)) != 0
    && Within(geo, s) + |data| <= geo.cluster
  }

  function Position(geo: Geometry, file: seq<Sector>, s: nat): nat
    requires geo.entries > 0 && geo.cluster > 0
  {
    Loc(geo, file, GrainOf(geo, s)) + Within(geo, s)
  }

  lemma PutBelow(geo: Geometry, file: seq<Sector>, s: nat, data: seq<Sector>)
    requires Writable(geo, file, s, data)
    ensures Position(geo, file, s) + |data| <= |file| && geo.grain <= |file|
    ensures Placed(geo) && Sized(geo) && geo.grain <= Position(geo, file, s)
  {
    OkSized(geo, file);
    ClusterAt(geo, file, GrainOf(geo, s));
  }

  /** Data never lands on the metadata. */
  lemma PutTables(geo: Geometry, file: seq<Sector>, s: nat, data: seq<Sector>, c: bool, j: nat)
    requires Writable(geo, file, s, data) && geo.HasTable(c, j)
    ensures Position(geo, file, s) + |data| <= |file|
    ensures Table(Put(file, Position(geo, file, s), data), geo.TableAt(c, j), geo.entries) ==
            Table(file, geo.TableAt(c, j), geo.entries)
  {
    hide Ok, Position, Table, Placed;
    PutBelow(geo, file, s, data);
    TableIsPlaced(geo, c, j);
    TableFrame(file, Put(file, Position(geo, file, s), data), geo.TableAt(c, j), geo.entries);
  }

  lemma PutLoc(geo: Geometry, file: seq<Sector>, s: nat, data: seq<Sector>, h: nat)
    requires Writable(geo, file, s, data)
    ensures Position(geo, file, s) + |data| <= |file|
    ensures Loc(geo, Put(file, Position(geo, file, s), data), h) == Loc(geo, file, h)
  {
    hide Ok, Position, Placed, Put, L1Index, L2Index;
    PutBelow(geo, file, s, data);
    var f := Put(file, Position(geo, file, s), data);
    var i, k := L1Index(geo, h), L2Index(geo, h);
    if geo.Mapped(i) {
      PutTables(geo, file, s, data, false, i);
      assert Table(f, geo.l1[i], geo.entries)[k] == Table(file, geo.l1[i], geo.entries)[k];
    }
  }

  lemma PutOk(geo: Geometry, file: seq<Sector>, s: nat, data: seq<Sector>)
    requires Writable(geo, file, s, data)
    ensures Position(geo, file, s) + |data| <= |file|
    ensures Ok(geo, Put(file, Position(geo, file, s), data))
    ensures Tidy(geo, file) ==> Tidy(geo, Put(file, Position(geo, file, s), data))
  {
    hide Position, Placed, Loc, Parse, Table, Taken;
    PutBelow(geo, file, s, data);
    var f := Put(file, Position(geo, file, s), data);
    forall h: nat
      ensures Loc(geo, f, h) == Loc(geo, file, h)
    {
      PutLoc(geo, file, s, data, h);
    }
    assert Allocated(geo, f) == Allocated(geo, file);
    ParseFrame(file, f, geo);
    forall j: nat | geo.HasTable(true, j)
      ensures Table(f, geo.backup[j], geo.entries) == Table(file, geo.backup[j], geo.entries)
      ensures Table(f, geo.l1[j], geo.entries) == Table(file, geo.l1[j], geo.entries)
    {
      PutTables(geo, file, s, data, true, j);
      PutTables(geo, file, s, data, false, j);
    }
  }

  /** The virtual disk gets the data where it was meant and nowhere else. */
  lemma PutContent(geo: Geometry, file: seq<Sector>, s: nat, data: seq<Sector>, x: nat)
    requires Writable(geo, file, s, data)
    ensures Position(geo, file, s) + |data| <= |file|
    ensures Content(geo, Put(file, Position(geo, file, s), data), x) ==
            if s <= x < s + |data| then data[x - s] else Content(geo, file, x)
  {
    hide Ok, Placed, Loc, GrainOf, Within;
    PutBelow(geo, file, s, data);
    PutLoc(geo, file, s, data, GrainOf(geo, x));
    if s <= x < s + |data| {
      SameGrain(geo, s, x - s);
    } else if GrainOf(geo, x) == GrainOf(geo, s) {
      GrainOffset(geo, s, x);
    } else if Loc(geo, file, GrainOf(geo, x)) != 0 {
      ClusterAt(geo, file, GrainOf(geo, x));
      ClustersApart(geo, file, GrainOf(geo, s), GrainOf(geo, x));
    }
  }

  // ----- the offset within a cluster, by mask and by remainder -----------------

  /** Where vmdk_write puts sector s: in its cluster, but at the masked offset. */
  function Landing(geo: Geometry, s: nat): nat
    requires geo.cluster > 0
  {
    s - Within(geo, s) + And(s, geo.cluster - 1)
  }

  lemma LandingIn(geo: Geometry, s: nat)
    requires geo.cluster > 0
    ensures And(s, geo.cluster - 1) < geo.cluster
    ensures GrainOf(geo, Landing(geo, s)) == GrainOf(geo, s)
    ensures Within(geo, Landing(geo, s)) == And(s, geo.cluster - 1)
  {
    AndAtMost(s, geo.cluster - 1);
    DivFacts(s, geo.cluster);
    DivModUnique(Landing(geo, s), s / geo.cluster, And(s, geo.cluster - 1), geo.cluster);
  }

  lemma LandsOnItself(geo: Geometry, s: nat)
    requires PowerOfTwo(geo.cluster)
    ensures geo.cluster > 0 && Landing(geo, s) == s
  {
    MaskModulo(s, geo.cluster);
  }

  /** vmdk_write masks where vmdk_read takes the remainder: the two agree on
      every sector exactly for power-of-two cluster sizes. */
  lemma MaskIsModulo(c: nat)
    requires c > 0
    ensures (forall x: nat :: And(x, c - 1) == x % c) <==> PowerOfTwo(c)
  {
    if PowerOfTwo(c) {
      forall x: nat ensures And(x, c - 1) == x % c { MaskModulo(x, c); }
    } else if forall x: nat :: And(x, c - 1) == x % c {
      assert And(c, c - 1) == c % c == 0;
      MaskOfSelf(c);
    }
  }
}
