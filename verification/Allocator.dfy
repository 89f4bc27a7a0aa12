/** Block and inode allocation (utils/dfs/group.c) on the bitmaps that
    utils/dfs/super.c lays out. A bitmap is its sequence of bits; searching one
    is Bitmap.FindZero, what find_next_zero_bit returns. */
module Allocator {
  import opened Arith
  import opened Basics
  import opened Bitmap

  const NO_HINT: nat := 0xffff_ffff

  /** One bitmap with its bookkeeping: how many bits are in use, the cached
      number of clear ones and the search hint. */
  datatype Map = Map(bits: seq<bool>, len: nat, clear: int, hint: nat)

  /** One kind of resource, blocks or inodes, over all groups: how many numbers
      a group spans, how many there are in all, each group's bitmap and the
      super block's count of free ones. */
  datatype Pool = Pool(per: nat, total: nat, maps: seq<Map>, free: int)

  // --------------------------------------------------------------- one bitmap

  function Clear(bits: seq<bool>, n: nat): (c: nat)
    requires n <= |bits|
    ensures c <= n
  {
    if n == 0 then 0 else Clear(bits, n - 1) + (if bits[n - 1] then 0 else 1)
  }

  lemma {:induction false} ClearUpdate(bits: seq<bool>, n: nat, i: nat, b: bool)
    requires n <= |bits| && i < |bits|
    ensures Clear(bits[i := b], n) ==
            Clear(bits, n) + (if i < n && bits[i] && !b then 1 else if i < n && !bits[i] && b then -1 else 0)
  {
    if n > 0 { ClearUpdate(bits, n - 1, i, b); }
  }

  lemma {:induction false} ClearZero(bits: seq<bool>, n: nat)
    requires n <= |bits|
    ensures Clear(bits, n) == 0 <==> forall i :: 0 <= i < n ==> bits[i]
  {
    if n > 0 { ClearZero(bits, n - 1); }
  }

  /** The cached count is right. */
  ghost predicate Counted(m: Map) {
    m.len <= |m.bits| && m.len < NO_HINT && m.clear == Clear(m.bits, m.len)
  }

  /** No clear bit lies below the hint. A missing hint is a sound one. */
  ghost predicate HintSound(m: Map) {
    m.hint != NO_HINT ==> forall i :: 0 <= i < m.hint && i < m.len && i < |m.bits| ==> m.bits[i]
  }

  /** The search names a position in use: the range is full from here on, ends
      inside a word, and the first position of that word is in use. */
  ghost predicate Misleads(bits: seq<bool>, len: nat, from: nat)
    requires len <= |bits|
  {
    from < len && len % 32 != 0 && Scan(bits, len, from) == len && bits[len - len % 32]
  }

  /** What a search result says about its position. */
  lemma Searched(bits: seq<bool>, len: nat, from: nat)
    requires len <= |bits|
    ensures var r := FindZero(bits, len, from);
            && r <= len
            && (r < len ==> (bits[r] <==> Misleads(bits, len, from)))
            && (r == len ==> forall i :: from <= i < len ==> bits[i])
            && ((exists i :: from <= i < len && !bits[i]) ==>
                  r < len && from <= r && !Misleads(bits, len, from) && forall i :: from <= i < r ==> bits[i])
  {
    var r := Scan(bits, len, from);
    if i :| from <= i < len && !bits[i] {
      assert r <= i;
    }
  }

  function SearchStart(m: Map): nat {
    if m.hint == NO_HINT then 0 else m.hint
  }

  function Taken(m: Map, i: nat, hint: nat): Map
    requires i < |m.bits|
  {
    m.(bits := m.bits[i := true], clear := m.clear - 1, hint := if hint == i then i + 1 else hint)
  }

  function Given(m: Map, i: nat): Map
    requires i < |m.bits|
  {
    m.(bits := m.bits[i := false], clear := m.clear + 1, hint := if m.hint > i then i else m.hint)
  }

  lemma TakenCounted(m: Map, i: nat, hint: nat)
    requires Counted(m) && i < m.len && !m.bits[i]
    ensures Counted(Taken(m, i, hint))
    ensures HintSound(m) && (hint == m.hint || hint == i) && (hint == i ==> forall k :: 0 <= k < i ==> m.bits[k]) ==>
              HintSound(Taken(m, i, hint))
  {
    ClearUpdate(m.bits, m.len, i, true);
  }

  lemma GivenCounted(m: Map, i: nat)
    requires Counted(m) && i < m.len && m.bits[i]
    ensures Counted(Given(m, i))
  {
    ClearUpdate(m.bits, m.len, i, false);
  }

  /** Giving back position i keeps the hint sound exactly if a missing hint is
      not replaced by one that skips a clear position. */
  lemma GivenHint(m: Map, i: nat)
    requires Counted(m) && HintSound(m) && i < m.len && m.bits[i]
    ensures HintSound(Given(m, i)) <==> (m.hint == NO_HINT ==> forall k :: 0 <= k < i ==> m.bits[k])
  {
    var m' := Given(m, i);
    if m.hint == NO_HINT && HintSound(m') {
      forall k | 0 <= k < i ensures m.bits[k] { assert m'.bits[k]; }
    }
  }

  /** With a sound hint the search finds the first clear position if there is
      one at all. */
  lemma HintSearch(m: Map)
    requires Counted(m) && HintSound(m) && m.clear > 0
    ensures var r := FindZero(m.bits, m.len, SearchStart(m));
            r < m.len && !m.bits[r] && !Misleads(m.bits, m.len, SearchStart(m)) && forall i :: 0 <= i < r ==> m.bits[i]
  {
    ClearZero(m.bits, m.len);
    var i :| 0 <= i < m.len && !m.bits[i];
    assert SearchStart(m) <= i;
    Searched(m.bits, m.len, SearchStart(m));
  }

  // ------------------------------------------------------------- all groups

  function Sum(maps: seq<Map>): int {
    if maps == [] then 0 else Sum(maps[..|maps| - 1]) + maps[|maps| - 1].clear
  }

  lemma {:induction false} SumUpdate(maps: seq<Map>, g: nat, m: Map)
    requires g < |maps|
    ensures Sum(maps[g := m]) == Sum(maps) + m.clear - maps[g].clear
  {
    var maps' := maps[g := m];
    if g < |maps| - 1 {
      SumUpdate(maps[..|maps| - 1], g, m);
      assert maps'[..|maps| - 1] == maps[..|maps| - 1][g := m];
    } else {
      assert maps'[..|maps| - 1] == maps[..|maps| - 1];
    }
  }

  lemma {:induction false} SumPositive(maps: seq<Map>)
    requires forall g :: 0 <= g < |maps| ==> maps[g].clear >= 0
    ensures Sum(maps) >= 0
    ensures Sum(maps) > 0 <==> exists g :: 0 <= g < |maps| && maps[g].clear > 0
  {
    if maps != [] {
      var front := maps[..|maps| - 1];
      SumPositive(front);
      if Sum(front) > 0 {
        var g :| 0 <= g < |front| && front[g].clear > 0;
        assert maps[g].clear > 0;
      }
      if g :| 0 <= g < |maps| && maps[g].clear > 0 {
        assert g < |front| ==> front[g].clear > 0;
      }
    }
  }

  /** Consistent bookkeeping at both levels; only the last group may be short. */
  ghost predicate Consistent(p: Pool) {
    && p.per > 0 && |p.maps| > 0
    && (forall g :: 0 <= g < |p.maps| ==> Counted(p.maps[g]) && 0 < p.maps[g].len <= p.per)
    && (forall g :: 0 <= g < |p.maps| - 1 ==> p.maps[g].len == p.per)
    && p.total == (|p.maps| - 1) * p.per + p.maps[|p.maps| - 1].len
    && p.free == Sum(p.maps)
  }

  ghost predicate HintsSound(p: Pool) {
    forall g :: 0 <= g < |p.maps| ==> HintSound(p.maps[g])
  }

  /** Every hint has been computed: true from formatting on, not after a mount. */
  ghost predicate HintsKnown(p: Pool) {
    forall g :: 0 <= g < |p.maps| ==> p.maps[g].hint != NO_HINT
  }

  /** The number at position i of group g. */
  function Num(p: Pool, g: nat, i: nat): nat {
    g * p.per + i
  }

  /** The group a number belongs to, and its position there. */
  function GroupOf(p: Pool, b: nat): nat
    requires p.per > 0
  {
    b / p.per
  }

  function IndexOf(p: Pool, b: nat): nat
    requires p.per > 0
  {
    b % p.per
  }

  lemma ConsistentFacts(p: Pool, g: nat)
    requires Consistent(p) && g < |p.maps|
    ensures Counted(p.maps[g]) && 0 < p.maps[g].len <= p.per && p.maps[g].len <= |p.maps[g].bits|
  {}

  /** Every number below the total has its bit. */
  lemma Locate(p: Pool, b: nat)
    requires Consistent(p) && b < p.total
    ensures p.per > 0
    ensures GroupOf(p, b) < |p.maps| && IndexOf(p, b) < p.maps[GroupOf(p, b)].len <= |p.maps[GroupOf(p, b)].bits|
    ensures Num(p, GroupOf(p, b), IndexOf(p, b)) == b
  {
    DivFacts(b, p.per);
    LocateLines(GroupOf(p, b), IndexOf(p, b), |p.maps| - 1, p.maps[|p.maps| - 1].len, p.per);
  }

  lemma LocateLines(g: nat, i: nat, last: nat, len: nat, per: nat)
    requires i < per && len <= per && g * per + i < last * per + len
    ensures g <= last && (g == last ==> i < len)
  {
    if g > last { MulLess(last, g, per); }
  }

  lemma Numbered(p: Pool, g: nat, i: nat)
    requires Consistent(p) && g < |p.maps| && i < p.maps[g].len
    ensures p.per > 0 && Num(p, g, i) < p.total && GroupOf(p, Num(p, g, i)) == g && IndexOf(p, Num(p, g, i)) == i
  {
    DivModUnique(Num(p, g, i), g, i, p.per);
    if g < |p.maps| - 1 { MulLess(g, |p.maps| - 1, p.per); }
  }

  /** The bit of number b is clear. */
  ghost predicate IsFree(p: Pool, b: nat) {
    && p.per > 0 && b < p.total && GroupOf(p, b) < |p.maps| && IndexOf(p, b) < |p.maps[GroupOf(p, b)].bits|
    && !p.maps[GroupOf(p, b)].bits[IndexOf(p, b)]
  }

  lemma IsFreeAt(p: Pool, g: nat, i: nat)
    requires Consistent(p) && g < |p.maps| && i < p.maps[g].len
    ensures i < |p.maps[g].bits| && IsFree(p, Num(p, g, i)) == !p.maps[g].bits[i]
  {
    hide Num, GroupOf, IndexOf;
    Numbered(p, g, i);
  }

  ghost function FreeSet(p: Pool): set<nat> {
    set b | 0 <= b < p.total && IsFree(p, b)
  }

  function TakeAt(p: Pool, g: nat, i: nat, hint: nat): Pool
    requires g < |p.maps| && i < |p.maps[g].bits|
  {
    p.(maps := p.maps[g := Taken(p.maps[g], i, hint)], free := p.free - 1)
  }

  function GiveAt(p: Pool, g: nat, i: nat): Pool
    requires g < |p.maps| && i < |p.maps[g].bits|
  {
    p.(maps := p.maps[g := Given(p.maps[g], i)], free := p.free + 1)
  }

  /** Replacing one group's bitmap, with its cached counts. */
  lemma Replaced(p: Pool, g: nat, m: Map, p': Pool)
    requires Consistent(p) && g < |p.maps| && Counted(m) && m.len == p.maps[g].len
    requires p' == p.(maps := p.maps[g := m], free := p.free + m.clear - p.maps[g].clear)
    ensures Consistent(p')
  {
    hide Counted, Clear;
    SumUpdate(p.maps, g, m);
  }

  /** Only the position whose bit changed is affected. */
  lemma FreeElsewhere(p: Pool, g: nat, i: nat, m: Map, p': Pool, b: nat)
    requires Consistent(p) && Consistent(p') && g < |p.maps| && i < p.maps[g].len && b < p.total && b != Num(p, g, i)
    requires m.len == p.maps[g].len && |m.bits| == |p.maps[g].bits|
    requires forall k :: 0 <= k < |m.bits| && k != i ==> m.bits[k] == p.maps[g].bits[k]
    requires p' == p.(maps := p.maps[g := m], free := p'.free)
    ensures IsFree(p', b) == IsFree(p, b)
  {
    hide Consistent, Num;
    Locate(p, b);
    Locate(p', b);
  }

  /** Taking a clear position: the bookkeeping stays right at both levels and
      exactly that number stops being free. */
  lemma TakeConsistent(p: Pool, g: nat, i: nat, hint: nat)
    requires Consistent(p) && g < |p.maps| && i < p.maps[g].len && !p.maps[g].bits[i]
    ensures Consistent(TakeAt(p, g, i, hint))
    ensures IsFree(p, Num(p, g, i)) && FreeSet(TakeAt(p, g, i, hint)) == FreeSet(p) - {Num(p, g, i)}
  {
    hide Consistent, IsFree, Num, GroupOf, IndexOf;
    ConsistentFacts(p, g);
    var p' := TakeAt(p, g, i, hint);
    TakenCounted(p.maps[g], i, hint);
    Replaced(p, g, Taken(p.maps[g], i, hint), p');
    IsFreeAt(p, g, i);
    IsFreeAt(p', g, i);
    Numbered(p, g, i);
    assert Num(p', g, i) == Num(p, g, i) by { SameNum(p, p', g, i); }
    forall b | 0 <= b < p.total && b != Num(p, g, i) ensures IsFree(p', b) == IsFree(p, b) {
      FreeElsewhere(p, g, i, Taken(p.maps[g], i, hint), p', b);
    }
  }

  lemma SameNum(p: Pool, p': Pool, g: nat, i: nat)
    requires p.per == p'.per
    ensures Num(p, g, i) == Num(p', g, i)
  {}

  lemma GiveConsistent(p: Pool, g: nat, i: nat)
    requires Consistent(p) && g < |p.maps| && i < p.maps[g].len && p.maps[g].bits[i]
    ensures Consistent(GiveAt(p, g, i))
    ensures !IsFree(p, Num(p, g, i)) && FreeSet(GiveAt(p, g, i)) == FreeSet(p) + {Num(p, g, i)}
  {
    hide Consistent, IsFree, Num, GroupOf, IndexOf;
    ConsistentFacts(p, g);
    var p' := GiveAt(p, g, i);
    GivenCounted(p.maps[g], i);
    Replaced(p, g, Given(p.maps[g], i), p');
    IsFreeAt(p, g, i);
    IsFreeAt(p', g, i);
    Numbered(p, g, i);
    assert Num(p', g, i) == Num(p, g, i) by { SameNum(p, p', g, i); }
    forall b | 0 <= b < p.total && b != Num(p, g, i) ensures IsFree(p', b) == IsFree(p, b) {
      FreeElsewhere(p, g, i, Given(p.maps[g], i), p', b);
    }
  }

  lemma ConsistentSum(p: Pool)
    requires Consistent(p)
    ensures p.free == Sum(p.maps) && p.per > 0 && |p.maps| > 0
    ensures forall g :: 0 <= g < |p.maps| ==> p.maps[g].clear >= 0
  {}

  /** There is a free number exactly if some group's count says so. */
  lemma SomeFree(p: Pool)
    requires Consistent(p)
    ensures p.free >= 0
    ensures p.free > 0 <==> exists g :: 0 <= g < |p.maps| && p.maps[g].clear > 0
    ensures p.free > 0 <==> FreeSet(p) != {}
  {
    hide Consistent, Num, GroupOf, IndexOf, IsFree, Sum;
    ConsistentSum(p);
    SumPositive(p.maps);
    if g :| 0 <= g < |p.maps| && p.maps[g].clear > 0 {
      FreeInGroup(p, g);
    }
    if b :| b in FreeSet(p) {
      FreeGroup(p, b);
    }
  }

  lemma FreeInGroup(p: Pool, g: nat)
    requires Consistent(p) && g < |p.maps| && p.maps[g].clear > 0
    ensures exists b :: b in FreeSet(p)
  {
    hide Consistent, Num, GroupOf, IndexOf, IsFree;
    ConsistentFacts(p, g);
    ClearZero(p.maps[g].bits, p.maps[g].len);
    var i :| 0 <= i < p.maps[g].len && !p.maps[g].bits[i];
    IsFreeAt(p, g, i);
    Numbered(p, g, i);
    assert Num(p, g, i) in FreeSet(p);
  }

  lemma FreeGroup(p: Pool, b: nat)
    requires Consistent(p) && IsFree(p, b)
    ensures p.per > 0 && GroupOf(p, b) < |p.maps| && p.maps[GroupOf(p, b)].clear > 0
  {
    hide Consistent, Num, GroupOf, IndexOf;
    Locate(p, b);
    ConsistentFacts(p, GroupOf(p, b));
    ClearZero(p.maps[GroupOf(p, b)].bits, p.maps[GroupOf(p, b)].len);
  }

  // -------------------------------------------------------- counts are sizes

  /** The free numbers among the first n positions of group g. */
  ghost function FreeIn(p: Pool, g: nat, n: nat): set<nat>
    requires g < |p.maps| && n <= |p.maps[g].bits|
  {
    set i | 0 <= i < n && !p.maps[g].bits[i] :: Num(p, g, i)
  }

  lemma {:induction false} FreeInCount(p: Pool, g: nat, n: nat)
    requires g < |p.maps| && n <= |p.maps[g].bits|
    ensures |FreeIn(p, g, n)| == Clear(p.maps[g].bits, n)
  {
    if n == 0 {
      assert FreeIn(p, g, 0) == {};
    } else {
      FreeInCount(p, g, n - 1);
      var rest, last := FreeIn(p, g, n - 1), Num(p, g, n - 1);
      assert last !in rest;
      if p.maps[g].bits[n - 1] {
        assert FreeIn(p, g, n) == rest;
      } else {
        assert FreeIn(p, g, n) == rest + {last};
      }
    }
  }

  ghost function FreeBelow(p: Pool, k: nat): set<nat>
    requires p.per > 0
  {
    set b | 0 <= b < p.total && IsFree(p, b) && GroupOf(p, b) < k
  }

  lemma FreeBelowStep(p: Pool, k: nat)
    requires Consistent(p) && k < |p.maps|
    ensures p.per > 0 && p.maps[k].len <= |p.maps[k].bits|
    ensures FreeBelow(p, k + 1) == FreeBelow(p, k) + FreeIn(p, k, p.maps[k].len)
    ensures FreeBelow(p, k) !! FreeIn(p, k, p.maps[k].len)
  {
    hide Consistent, Num, GroupOf, IndexOf;
    ConsistentSum(p);
    ConsistentFacts(p, k);
    forall b | b in FreeBelow(p, k + 1) && GroupOf(p, b) == k ensures b in FreeIn(p, k, p.maps[k].len) {
      Locate(p, b);
    }
    forall b | b in FreeIn(p, k, p.maps[k].len) ensures b in FreeBelow(p, k + 1) && b !in FreeBelow(p, k) {
      var i :| 0 <= i < p.maps[k].len && !p.maps[k].bits[i] && b == Num(p, k, i);
      Numbered(p, k, i);
      IsFreeAt(p, k, i);
    }
  }

  lemma {:induction false} FreeBelowCount(p: Pool, k: nat)
    requires Consistent(p) && k <= |p.maps| && p.per > 0
    ensures |FreeBelow(p, k)| == Sum(p.maps[..k])
  {
    hide Consistent, Num, GroupOf, IndexOf, IsFree;
    if k == 0 {
      assert FreeBelow(p, 0) == {};
    } else {
      FreeBelowCount(p, k - 1);
      FreeBelowStep(p, k - 1);
      ConsistentFacts(p, k - 1);
      FreeInCount(p, k - 1, p.maps[k - 1].len);
      assert p.maps[..k][..k - 1] == p.maps[..k - 1];
    }
  }

  /** The super block's count is the number of free numbers. */
  lemma FreeCount(p: Pool)
    requires Consistent(p)
    ensures |FreeSet(p)| == p.free
  {
    hide Consistent, Num, IndexOf;
    ConsistentSum(p);
    FreeBelowCount(p, |p.maps|);
    assert p.maps[..|p.maps|] == p.maps;
    forall b | b in FreeSet(p) ensures b in FreeBelow(p, |p.maps|) {
      Locate(p, b);
    }
    assert FreeSet(p) == FreeBelow(p, |p.maps|);
  }

  // ------------------------------------------------------------ after a mount

  function Forget(maps: seq<Map>): (r: seq<Map>)
    ensures |r| == |maps| && forall g :: 0 <= g < |maps| ==> r[g] == maps[g].(hint := NO_HINT)
  {
    seq(|maps|, g requires 0 <= g < |maps| => maps[g].(hint := NO_HINT))
  }

  /** open_filesystem forgets every hint. */
  function Mounted(p: Pool): Pool {
    p.(maps := Forget(p.maps))
  }

  /** A mounted volume starts with sound, if missing, hints. */
  lemma MountedSound(p: Pool)
    requires Consistent(p)
    ensures Consistent(Mounted(p)) && HintsSound(Mounted(p)) && FreeSet(Mounted(p)) == FreeSet(p)
  {
    hide Clear, Sum, Forget;
    MountedSum(p.maps);
    var p' := Mounted(p);
    forall g | 0 <= g < |p'.maps|
      ensures Counted(p'.maps[g]) && HintSound(p'.maps[g]) && p'.maps[g].len == p.maps[g].len
    {
      assert p'.maps[g] == p.maps[g].(hint := NO_HINT);
    }
    assert Consistent(p');
    forall b | 0 <= b < p.total ensures IsFree(p', b) == IsFree(p, b) {
      Locate(p, b);
      assert p'.maps[GroupOf(p, b)].bits == p.maps[GroupOf(p, b)].bits;
    }
  }

  lemma {:induction false} MountedSum(maps: seq<Map>)
    ensures Sum(Forget(maps)) == Sum(maps)
  {
    if maps != [] {
      var front := maps[..|maps| - 1];
      MountedSum(front);
      assert Forget(maps)[..|maps| - 1] == Forget(front);
    }
  }

  /** One group of 32 blocks, just mounted, with only block 0 free. */
  function AlmostFull(): (p: Pool)
    ensures |p.maps| == 1 && |p.maps[0].bits| == 32
  {
    Pool(32, 32, [Map(seq(32, i => i != 0), 32, 1, NO_HINT)], 1)
  }

  lemma AlmostFullConsistent()
    ensures Consistent(AlmostFull()) && HintsSound(AlmostFull())
  {
    var m := AlmostFull().maps[0];
    OneClear(m.bits, 32, 0);
    assert [m][..0] == [];
    assert Sum([m]) == Sum([]) + 1;
  }

  /** After a mount, giving back one block and taking it again makes the search
      pass over a group that still has a free block: "disk full" too early. */
  lemma MountedLosesBlock()
    ensures var p := AlmostFull();
            var p1 := GiveAt(p, 0, 31);
            var p2 := TakeAt(p1, 0, 31, 31);
            && Consistent(p) && HintsSound(p)
            && Consistent(p1) && !HintsSound(p1)
            && Consistent(p2) && FreeSet(p2) != {}
            && Exhausted(p2)
  {
    hide Consistent, IsFree, Num, Sum, Clear;
    var p := AlmostFull();
    AlmostFullConsistent();
    GiveConsistent(p, 0, 31);
    var p1 := GiveAt(p, 0, 31);
    assert p1.maps[0].hint == 31 && !p1.maps[0].bits[0];
    assert !HintSound(p1.maps[0]);
    TakeConsistent(p1, 0, 31, 31);
    var p2 := TakeAt(p1, 0, 31, 31);
    SomeFree(p2);
    assert PassedOver(p2.maps[0]);
  }

  lemma {:induction false} OneClear(bits: seq<bool>, n: nat, z: nat)
    requires n <= |bits| && forall i :: 0 <= i < |bits| ==> bits[i] == (i != z)
    ensures Clear(bits, n) == if n > z then 1 else 0
  {
    if n > 0 { OneClear(bits, n - 1, z); }
  }

  /** One group of 52 blocks, just mounted, with only block 3 free. */
  function MountedTail(): (p: Pool)
    ensures |p.maps| == 1 && |p.maps[0].bits| == 64
  {
    Pool(64, 52, [Map(seq(64, i => i != 3), 52, 1, NO_HINT)], 1)
  }

  lemma MountedTailConsistent()
    ensures Consistent(MountedTail()) && HintsSound(MountedTail())
  {
    var m := MountedTail().maps[0];
    OneClear(m.bits, 52, 3);
    assert [m][..0] == [];
    assert Sum([m]) == Sum([]) + 1;
  }

  /** A second way to a block in use, without a misled goal: after a mount, give
      back block 50 and take it again. The next allocation, with no goal, names
      block 32, which is in use, while block 3 is free. */
  lemma HintNamesUsed()
    ensures var p1 := GiveAt(MountedTail(), 0, 50);
            var p2 := TakeAt(p1, 0, 50, 50);
            && Consistent(MountedTail()) && Consistent(p1) && Chosen(p1, 52, 0, 50)
            && Consistent(p2) && 3 in FreeSet(p2)
            && Chosen(p2, 52, 0, 32) && 32 !in FreeSet(p2) && !GoalMisled(p2, 52) && Misled(p2, 52)
  {
    hide Consistent, Num, Sum, Clear;
    var p := MountedTail();
    MountedTailConsistent();
    GiveConsistent(p, 0, 50);
    var p1 := GiveAt(p, 0, 50);
    TakeConsistent(p1, 0, 50, 50);
    var p2 := TakeAt(p1, 0, 50, 50);
    var m1, m2 := p1.maps[0], p2.maps[0];
    assert SearchStart(m1) == 50 && !m1.bits[50];
    assert SearchStart(m2) == 51 && m2.bits[51];
    assert Scan(m2.bits, 52, 51) == Scan(m2.bits, 52, 52) == 52;
    assert IsFree(p2, 3) && !IsFree(p2, 32);
    assert ByHint(p1, 0, 0, 50) && ByHint(p2, 0, 0, 32);
  }

  // ---------------------------------------------------------- block searches

  /** The goal is in use and the search behind it names a used position. */
  ghost predicate GoalMisled(p: Pool, goal: nat) {
    && p.per > 0 && goal < p.total && GroupOf(p, goal) < |p.maps|
    && var m, i := p.maps[GroupOf(p, goal)], IndexOf(p, goal);
       i < |m.bits| && m.len <= |m.bits| && m.bits[i] && Misleads(m.bits, m.len, i + 1)
  }

  ghost predicate HintMisled(p: Pool) {
    exists g :: 0 <= g < |p.maps| && p.maps[g].len <= |p.maps[g].bits| && p.maps[g].clear > 0
                && Misleads(p.maps[g].bits, p.maps[g].len, SearchStart(p.maps[g]))
  }

  ghost predicate InFullPartialGroup(p: Pool, goal: nat) {
    && p.per > 0 && GroupOf(p, goal) < |p.maps|
    && var m := p.maps[GroupOf(p, goal)]; m.clear == 0 && m.len % 32 != 0 && IndexOf(p, goal) + 1 < m.len
  }

  /** The whole family of misled goals is not empty: any goal but the last in a
      full group that ends inside a word. */
  lemma FullPartialGroup(p: Pool, goal: nat)
    requires Consistent(p) && goal < p.total && InFullPartialGroup(p, goal)
    ensures GoalMisled(p, goal)
  {
    hide Consistent, GroupOf, IndexOf, Num;
    Locate(p, goal);
    var m := p.maps[GroupOf(p, goal)];
    ConsistentFacts(p, GroupOf(p, goal));
    ClearZero(m.bits, m.len);
    ScanOver(m.bits, m.len, IndexOf(p, goal) + 1, m.len);
  }

  /** On a full volume some goal is misled exactly if some group of more than one
      block ends inside a word: alignment is what it takes to be safe. */
  lemma FullMisled(p: Pool)
    requires Consistent(p) && FreeSet(p) == {}
    ensures (exists goal: nat :: GoalMisled(p, goal)) <==>
            exists g :: 0 <= g < |p.maps| && p.maps[g].len % 32 != 0 && p.maps[g].len > 1
  {
    hide Consistent, GroupOf, IndexOf, Num, IsFree;
    ConsistentSum(p);
    SomeFree(p);
    if g :| 0 <= g < |p.maps| && p.maps[g].len % 32 != 0 && p.maps[g].len > 1 {
      ConsistentFacts(p, g);
      Numbered(p, g, 0);
      FullPartialGroup(p, Num(p, g, 0));
    }
    if goal: nat :| GoalMisled(p, goal) {
      assert p.maps[GroupOf(p, goal)].len > 1;
    }
  }

  /** Every group is a whole number of bitmap words. */
  ghost predicate Aligned(p: Pool) {
    forall g :: 0 <= g < |p.maps| ==> p.maps[g].len % 32 == 0
  }

  /** Right counts and hints that have been computed and skip nothing. */
  ghost predicate Healthy(p: Pool) {
    Consistent(p) && HintsSound(p) && HintsKnown(p)
  }

  /** Taking numbers keeps sound hints sound and computed hints computed. */
  ghost predicate HintsKept(p: Pool, p': Pool) {
    && (Aligned(p) ==> Aligned(p'))
    && (HintsSound(p) ==> HintsSound(p')) && (HintsKnown(p) ==> HintsKnown(p'))
  }

  /** Giving numbers back keeps hints sound only where all have been computed. */
  ghost predicate HealthKept(p: Pool, p': Pool) {
    && (Aligned(p) ==> Aligned(p'))
    && (HintsSound(p) && HintsKnown(p) ==> HintsSound(p') && HintsKnown(p'))
  }

  lemma AllKept(p: Pool)
    ensures HintsKept(p, p) && HealthKept(p, p)
  {}

  lemma KeptTwice(p: Pool, p1: Pool, p2: Pool)
    requires HintsKept(p, p1)
    ensures HintsKept(p1, p2) ==> HintsKept(p, p2)
  {
    hide Aligned, HintsSound, HintsKnown;
  }

  /** The cyclic search passes over every group. */
  ghost predicate Exhausted(p: Pool) {
    forall g :: 0 <= g < |p.maps| ==> PassedOver(p.maps[g])
  }

  /** Where every group is a whole number of words, nothing misleads. */
  lemma AlignedNeverMisled(p: Pool, goal: nat)
    requires Aligned(p)
    ensures !GoalMisled(p, goal) && !HintMisled(p) && !Misled(p, goal)
  {}

  /** Sound hints never mislead. */
  lemma SoundHintsLead(p: Pool)
    requires Consistent(p) && HintsSound(p)
    ensures !HintMisled(p)
  {
    forall g | 0 <= g < |p.maps| && p.maps[g].clear > 0
      ensures !Misleads(p.maps[g].bits, p.maps[g].len, SearchStart(p.maps[g]))
    {
      HintSearch(p.maps[g]);
    }
  }

  lemma TakeKeepsHints(p: Pool, g: nat, i: nat, hint: nat)
    requires Consistent(p) && HintsSound(p) && g < |p.maps| && i < p.maps[g].len && !p.maps[g].bits[i]
    requires hint == p.maps[g].hint || (hint == i && forall k :: 0 <= k < i ==> p.maps[g].bits[k])
    ensures HintsSound(TakeAt(p, g, i, hint))
  {
    hide Consistent;
    ConsistentFacts(p, g);
    if hint == i && hint == p.maps[g].hint {
      assert forall k :: 0 <= k < i ==> p.maps[g].bits[k];
    }
    TakenCounted(p.maps[g], i, hint);
  }

  /** Groups passed over by the cyclic search: without a clear bit by the count,
      or where the search from the hint on names no position. */
  ghost predicate PassedOver(m: Map) {
    m.clear <= 0 || (m.len <= |m.bits| && FindZero(m.bits, m.len, SearchStart(m)) == m.len)
  }

  /** A group with a clear bit is passed over exactly if all its clear bits lie
      below the hint and the search does not end inside a word. */
  lemma PassedWithClear(m: Map)
    requires Counted(m) && m.clear > 0
    ensures PassedOver(m) <==>
            (forall i :: SearchStart(m) <= i < m.len ==> m.bits[i]) && (SearchStart(m) >= m.len || m.len % 32 == 0)
  {
    Searched(m.bits, m.len, SearchStart(m));
    if forall i :: SearchStart(m) <= i < m.len ==> m.bits[i] {
      if SearchStart(m) < m.len { ScanOver(m.bits, m.len, SearchStart(m), m.len); }
    }
  }

  /** x comes before g when counting up from start and around. */
  predicate Before(start: nat, g: nat, x: nat) {
    if start <= g then start <= x < g else start <= x || x < g
  }

  /** The search at the goal names position i: the goal itself if it is clear,
      otherwise what the word-wise search finds behind it. */
  ghost predicate AtGoal(p: Pool, goal: nat, i: nat) {
    && p.per > 0 && goal < p.total && GroupOf(p, goal) < |p.maps|
    && var m, j := p.maps[GroupOf(p, goal)], IndexOf(p, goal);
       j < |m.bits| && i < m.len <= |m.bits| && i == if m.bits[j] then FindZero(m.bits, m.len, j + 1) else j
  }

  /** The cyclic search names position i of group g: what the word-wise search
      finds from that group's hint on, no group before it having any. */
  ghost predicate ByHint(p: Pool, start: nat, g: nat, i: nat) {
    && g < |p.maps| && p.maps[g].clear > 0 && i < p.maps[g].len <= |p.maps[g].bits|
    && i == FindZero(p.maps[g].bits, p.maps[g].len, SearchStart(p.maps[g]))
    && forall x: nat :: x < |p.maps| && Before(start, g, x) ==> PassedOver(p.maps[x])
  }

  /** The group where the cyclic search starts. */
  function StartGroup(p: Pool, goal: nat): nat
    requires p.per > 0
  {
    if goal < p.total then GroupOf(p, goal) else 0
  }

  /** Where new_block looks: at the goal first, then around from its group. */
  ghost predicate Chosen(p: Pool, goal: nat, g: nat, i: nat) {
    && p.per > 0
    && if exists j :: AtGoal(p, goal, j) then g == StartGroup(p, goal) && AtGoal(p, goal, i)
       else ByHint(p, StartGroup(p, goal), g, i)
  }

  /** The search at the goal names nothing, and the first group with a name to
      give names a position in use. */
  ghost predicate HintChoiceMisled(p: Pool, goal: nat) {
    && p.per > 0 && (forall j :: !AtGoal(p, goal, j))
    && exists g: nat, i: nat :: ByHint(p, StartGroup(p, goal), g, i)
                      && Misleads(p.maps[g].bits, p.maps[g].len, SearchStart(p.maps[g]))
  }

  /** The exact condition under which new_block hands out a block in use. */
  ghost predicate Misled(p: Pool, goal: nat) {
    GoalMisled(p, goal) || HintChoiceMisled(p, goal)
  }

  /** The exact condition under which new_block reports a full disk. */
  ghost predicate NothingChosen(p: Pool, goal: nat) {
    (forall j :: !AtGoal(p, goal, j)) && Exhausted(p)
  }

  /** Both searches are functions of the state: at most one group is found. */
  lemma ByHintUnique(p: Pool, start: nat, g: nat, i: nat, h: nat, j: nat)
    requires start < |p.maps| && ByHint(p, start, g, i) && ByHint(p, start, h, j)
    ensures g == h && i == j
  {
    assert g != h ==> Before(start, g, h) || Before(start, h, g);
  }

  /** Nothing is chosen exactly if the searches name nothing at all. */
  lemma NothingNamed(p: Pool, goal: nat, g: nat, i: nat)
    requires NothingChosen(p, goal)
    ensures !Chosen(p, goal, g, i) && !HintChoiceMisled(p, goal)
  {}

  /** "Disk full" comes too early exactly if free blocks are left but each group
      that has one keeps all of them below its hint. */
  lemma FullTooEarly(p: Pool, goal: nat)
    requires Consistent(p)
    ensures NothingChosen(p, goal) && FreeSet(p) != {} <==>
            && (forall j :: !AtGoal(p, goal, j))
            && (exists g :: 0 <= g < |p.maps| && p.maps[g].clear > 0)
            && forall g :: 0 <= g < |p.maps| && p.maps[g].clear > 0 ==> Skipped(p.maps[g])
  {
    hide Consistent, FindZero, AtGoal, IsFree;
    SomeFree(p);
    forall g | 0 <= g < |p.maps| && p.maps[g].clear > 0
      ensures PassedOver(p.maps[g]) <==> Skipped(p.maps[g])
    {
      ConsistentFacts(p, g);
      PassedWithClear(p.maps[g]);
    }
  }

  /** The hint lies behind every clear bit and the search stops at the end. */
  ghost predicate Skipped(m: Map) {
    && (forall i :: SearchStart(m) <= i < m.len && i < |m.bits| ==> m.bits[i])
    && (SearchStart(m) >= m.len || m.len % 32 == 0)
  }

  /** With sound hints the search gives up only on a full volume. */
  lemma PassedOverIsFull(p: Pool)
    requires Consistent(p) && HintsSound(p) && Exhausted(p)
    ensures FreeSet(p) == {}
  {
    hide IsFree;
    forall g | 0 <= g < |p.maps| ensures p.maps[g].clear <= 0 {
      if p.maps[g].clear > 0 { HintSearch(p.maps[g]); }
    }
    SomeFree(p);
  }

  // ------------------------------------------------------------ how near the goal

  /** Position i of the goal's group is clear and not before the goal. */
  ghost predicate Behind(p: Pool, goal: nat, i: nat) {
    && p.per > 0 && goal < p.total && GroupOf(p, goal) < |p.maps|
    && var m := p.maps[GroupOf(p, goal)]; IndexOf(p, goal) <= i < m.len <= |m.bits| && !m.bits[i]
  }

  /** Position i is the first of the group's last word, which is not whole. */
  ghost predicate AtWord(p: Pool, goal: nat, i: nat) {
    && p.per > 0 && goal < p.total && GroupOf(p, goal) < |p.maps|
    && var m := p.maps[GroupOf(p, goal)]; m.len % 32 != 0 && IndexOf(p, goal) + 1 < m.len && i == m.len - m.len % 32
  }

  /** What a search with sound hints that is not misled finds: the first clear
      position from the goal on in its group; if there is none, the start of that
      group's last word if this is not whole, by accident; and otherwise the first
      clear position of the first group that has any, around from the goal's. */
  lemma ChosenNearest(p: Pool, goal: nat, g: nat, i: nat)
    requires Consistent(p) && HintsSound(p) && !Misled(p, goal) && Chosen(p, goal, g, i)
    ensures i < p.maps[g].len <= |p.maps[g].bits| && !p.maps[g].bits[i]
    ensures (exists k: nat :: Behind(p, goal, k)) ==>
              g == StartGroup(p, goal) && Behind(p, goal, i) && forall k: nat :: Behind(p, goal, k) ==> i <= k
    ensures (forall k: nat :: !Behind(p, goal, k)) ==>
              (g == StartGroup(p, goal) && AtWord(p, goal, i)) || FirstAround(p, StartGroup(p, goal), g, i)
  {
    hide Consistent, Num, FreeSet, HintsSound;
    if exists j :: AtGoal(p, goal, j) {
      GoalNearest(p, goal, i);
    } else {
      if k: nat :| Behind(p, goal, k) { BehindFound(p, goal, k); }
      AroundNearest(p, StartGroup(p, goal), g, i);
    }
  }

  /** Position i is the first clear one of group g, the first group that has one. */
  ghost predicate FirstAround(p: Pool, start: nat, g: nat, i: nat) {
    && g < |p.maps| && i < p.maps[g].len <= |p.maps[g].bits| && !p.maps[g].bits[i]
    && (forall k :: 0 <= k < i ==> p.maps[g].bits[k])
    && forall x: nat, k: nat :: x < |p.maps| && Before(start, g, x) && k < p.maps[x].len <= |p.maps[x].bits| ==>
                                  p.maps[x].bits[k]
  }

  lemma BehindFound(p: Pool, goal: nat, k: nat)
    requires Behind(p, goal, k)
    ensures exists j :: AtGoal(p, goal, j)
  {
    var m, j := p.maps[GroupOf(p, goal)], IndexOf(p, goal);
    Searched(m.bits, m.len, j + 1);
    var i := if m.bits[j] then FindZero(m.bits, m.len, j + 1) else j;
    assert AtGoal(p, goal, i);
  }

  lemma GoalNearest(p: Pool, goal: nat, i: nat)
    requires Consistent(p) && AtGoal(p, goal, i) && !GoalMisled(p, goal)
    ensures var m := p.maps[StartGroup(p, goal)]; i < m.len <= |m.bits| && !m.bits[i]
    ensures (exists k: nat :: Behind(p, goal, k)) ==>
              Behind(p, goal, i) && forall k: nat :: Behind(p, goal, k) ==> i <= k
    ensures (forall k: nat :: !Behind(p, goal, k)) ==> AtWord(p, goal, i)
  {
    hide Consistent;
    var m, j := p.maps[GroupOf(p, goal)], IndexOf(p, goal);
    Searched(m.bits, m.len, j + 1);
    if k: nat :| Behind(p, goal, k) {
      assert Behind(p, goal, i);
    } else {
      assert !Behind(p, goal, j);
      forall k | j + 1 <= k < m.len ensures m.bits[k] { assert !Behind(p, goal, k); }
      if j + 1 < m.len { ScanOver(m.bits, m.len, j + 1, m.len); }
    }
  }

  lemma AroundNearest(p: Pool, start: nat, g: nat, i: nat)
    requires Consistent(p) && HintsSound(p) && ByHint(p, start, g, i)
    ensures FirstAround(p, start, g, i)
  {
    ConsistentFacts(p, g);
    HintSearch(p.maps[g]);
    forall x: nat, k: nat | x < |p.maps| && Before(start, g, x) && k < p.maps[x].len <= |p.maps[x].bits|
      ensures p.maps[x].bits[k]
    {
      ConsistentFacts(p, x);
      if p.maps[x].clear > 0 { HintSearch(p.maps[x]); }
      ClearZero(p.maps[x].bits, p.maps[x].len);
    }
  }

  class Filesystem {
    var blocks: Pool
    var inodes: Pool

    constructor (blocks: Pool, inodes: Pool)
      ensures this.blocks == blocks && this.inodes == inodes
    {
      this.blocks, this.inodes := blocks, inodes;
    }

    /** The loop of open_filesystem: the bitmaps and counts are as on disk, and no
        group has a hint. */
    method Mount()
      requires |blocks.maps| == |inodes.maps|
      modifies this
      ensures blocks == Mounted(old(blocks)) && inodes == Mounted(old(inodes))
    {
      var i := 0;
      var b, n := blocks.maps, inodes.maps;
      while i < |blocks.maps|
        invariant 0 <= i <= |blocks.maps| == |b| == |n|
        invariant forall g :: 0 <= g < |b| ==>
                    b[g] == if g < i then blocks.maps[g].(hint := NO_HINT) else blocks.maps[g]
        invariant forall g :: 0 <= g < |n| ==>
                    n[g] == if g < i then inodes.maps[g].(hint := NO_HINT) else inodes.maps[g]
      {
        b, n := b[i := b[i].(hint := NO_HINT)], n[i := n[i].(hint := NO_HINT)];
        i := i + 1;
      }
      assert b == Forget(blocks.maps) && n == Forget(inodes.maps);
      blocks, inodes := blocks.(maps := b), inodes.(maps := n);
    }

    /** The goal itself, or the next clear position behind it in its group. */
    method SearchAtGoal(goal: nat) returns (group: nat, index: nat, found: bool)
      requires Consistent(blocks)
      ensures group < |blocks.maps|
      ensures goal < blocks.total ==> group == GroupOf(blocks, goal)
      ensures found ==> goal < blocks.total && index < blocks.maps[group].len <= |blocks.maps[group].bits|
      ensures found ==> (blocks.maps[group].bits[index] <==> GoalMisled(blocks, goal))
      ensures !found ==> !GoalMisled(blocks, goal)
      ensures goal in FreeSet(blocks) ==> found && Num(blocks, group, index) == goal
      ensures goal >= blocks.total ==> group == 0
      ensures if found then AtGoal(blocks, goal, index) else forall i :: !AtGoal(blocks, goal, i)
    {
      hide Consistent, Num, GroupOf, IndexOf, Scan;
      group, index, found := 0, 0, false;
      ConsistentSum(blocks);
      if goal < blocks.total {
        Locate(blocks, goal);
        group, index := GroupOf(blocks, goal), IndexOf(blocks, goal);
        var m := blocks.maps[group];
        ConsistentFacts(blocks, group);
        if !m.bits[index] {
          return group, index, true;
        }
        Searched(m.bits, m.len, index + 1);
        index := FindZero(m.bits, m.len, index + 1);
        found := index != m.len;
      }
    }

    /** new_block. Disk full stops the program, which the model shows as None.
        The result is the one position the two searches choose; it was free
        exactly if neither search is misled. With sound hints disk full is
        reported exactly if nothing is free. */
    method NewBlock(goal: nat) returns (r: Option<nat>, ghost group: nat, ghost index: nat)
      requires Consistent(blocks)
      modifies this`blocks
      ensures r.Some? <==> exists g: nat, i: nat :: Chosen(old(blocks), goal, g, i)
      ensures r.None? <==> NothingChosen(old(blocks), goal)
      ensures r.Some? ==> Chosen(old(blocks), goal, group, index) && r.value == Num(old(blocks), group, index)
      ensures r.Some? ==> (r.value in FreeSet(old(blocks)) <==> !Misled(old(blocks), goal))
      ensures r.None? ==> blocks == old(blocks)
      ensures r.Some? && !Misled(old(blocks), goal) ==>
                Consistent(blocks) && FreeSet(blocks) == FreeSet(old(blocks)) - {r.value}
      ensures r.Some? ==> blocks.free == old(blocks).free - 1 && r.value !in FreeSet(blocks)
      ensures r.Some? ==> r.value < blocks.total
      ensures GoalMisled(old(blocks), goal) ==> r.Some?
      ensures !GoalMisled(old(blocks), goal) && HintsSound(old(blocks)) ==>
                !Misled(old(blocks), goal) && HintsSound(blocks) && (r.None? <==> FreeSet(old(blocks)) == {})
      ensures HintsKnown(old(blocks)) ==> HintsKnown(blocks)
      ensures SameShape(old(blocks), blocks)
      ensures goal in FreeSet(old(blocks)) ==> r == Some(goal)
    {
      hide Consistent, Num, GroupOf, IndexOf, Misleads, IsFree, FreeSet, GoalMisled, AtGoal, ByHint, PassedOver, Chosen;
      ConsistentSum(blocks);
      var g, i, found := SearchAtGoal(goal);
      ghost var atGoal := found;
      var hint := blocks.maps[g].hint;
      if !found {
        g, i, hint, found := SearchGroups(g);
        if !found {
          NoneLeft(blocks);
          NothingNamed(blocks, goal, 0, 0);
          forall g: nat, i: nat ensures !Chosen(blocks, goal, g, i) { NothingNamed(blocks, goal, g, i); }
          return None, 0, 0;
        }
      }
      Decided(blocks, goal, g, i, atGoal);
      Outcome(blocks, g, i, hint);
      r, group, index := Some(Num(blocks, g, i)), g, i;
      blocks := TakeAt(blocks, g, i, hint);
    }

    /** The cyclic search through all groups, from each group's hint. */
    method SearchGroups(start: nat) returns (group: nat, index: nat, hint: nat, found: bool)
      requires Consistent(blocks) && start < |blocks.maps|
      ensures found ==> group < |blocks.maps| && index < blocks.maps[group].len <= |blocks.maps[group].bits|
      ensures found ==> (blocks.maps[group].bits[index] <==>
                         Misleads(blocks.maps[group].bits, blocks.maps[group].len, SearchStart(blocks.maps[group])))
      ensures found ==> hint == blocks.maps[group].hint
                        || (hint == index && blocks.maps[group].hint == NO_HINT)
      ensures found && HintsSound(blocks) ==> forall k :: 0 <= k < index ==> blocks.maps[group].bits[k]
      ensures !found <==> Exhausted(blocks)
      ensures found ==> ByHint(blocks, start, group, index)
    {
      hide Consistent, Misleads, FindZero;
      group, index, hint, found := start, 0, 0, false;
      var i := 0;
      while i < |blocks.maps| && !found
        invariant 0 <= i <= |blocks.maps| && 0 <= group < |blocks.maps|
        invariant group == if start + i < |blocks.maps| then start + i else start + i - |blocks.maps|
        invariant forall g :: 0 <= g < |blocks.maps| && (start <= g < start + i || g + |blocks.maps| < start + i)
                    ==> PassedOver(blocks.maps[g])
        invariant found ==> i < |blocks.maps| && blocks.maps[group].clear > 0
        invariant found ==> index < blocks.maps[group].len <= |blocks.maps[group].bits|
        invariant found ==>
                    index == FindZero(blocks.maps[group].bits, blocks.maps[group].len, SearchStart(blocks.maps[group]))
        invariant found ==> (blocks.maps[group].bits[index] <==>
                             Misleads(blocks.maps[group].bits, blocks.maps[group].len, SearchStart(blocks.maps[group])))
        invariant found ==> hint == blocks.maps[group].hint
                            || (hint == index && blocks.maps[group].hint == NO_HINT)
        invariant found && HintsSound(blocks) ==> forall k :: 0 <= k < index ==> blocks.maps[group].bits[k]
        decreases |blocks.maps| - i, !found
      {
        var m := blocks.maps[group];
        ConsistentFacts(blocks, group);
        if m.clear > 0 {
          Searched(m.bits, m.len, SearchStart(m));
          index := FindZero(m.bits, m.len, SearchStart(m));
          hint := if m.hint != NO_HINT then m.hint else index;
          found := index != m.len;
          if found && HintsSound(blocks) { HintSearch(m); }
        }
        if !found {
          group := group + 1;
          if group >= |blocks.maps| { group := 0; }
          i := i + 1;
        }
      }
    }

    /** free_blocks: only numbers in use are given back, each once. */
    method FreeBlocks(list: seq<nat>)
      requires Consistent(blocks)
      requires forall i :: 0 <= i < |list| ==> list[i] < blocks.total && list[i] !in FreeSet(blocks)
      requires forall i, i' :: 0 <= i < i' < |list| ==> list[i] != list[i']
      modifies this`blocks
      ensures Consistent(blocks) && SameShape(old(blocks), blocks)
      ensures FreeSet(blocks) == FreeSet(old(blocks)) + Elements(list)
      ensures HintsSound(old(blocks)) && HintsKnown(old(blocks)) ==> HintsSound(blocks) && HintsKnown(blocks)
    {
      hide Consistent, Num, GroupOf, IndexOf, FreeSet, HintsSound, HintsKnown, GiveAt;
      assert list[..0] == [];
      var i := 0;
      while i < |list|
        invariant 0 <= i <= |list| && Consistent(blocks) && SameShape(old(blocks), blocks)
        invariant FreeSet(blocks) == FreeSet(old(blocks)) + Elements(list[..i])
        invariant HintsSound(old(blocks)) && HintsKnown(old(blocks)) ==> HintsSound(blocks) && HintsKnown(blocks)
      {
        GiveNumber(blocks, list[i]);
        var group, index := GroupOf(blocks, list[i]), IndexOf(blocks, list[i]);
        blocks := GiveAt(blocks, group, index);
        assert list[..i + 1] == list[..i] + [list[i]];
        i := i + 1;
      }
      assert list[..i] == list;
    }

    /** The group for a new directory: among the groups with a free inode and
        no fewer than average, one with the most free blocks. */
    method DirectoryGroup() returns (group: nat)
      requires Consistent(inodes) && Consistent(blocks) && |blocks.maps| == |inodes.maps|
      ensures group < |inodes.maps|
      ensures inodes.free > 0 ==> BestForDirectory(inodes, blocks, group)
      ensures inodes.free == 0 ==> group == 0
    {
      hide Consistent;
      ConsistentSum(inodes);
      var average := inodes.free / |inodes.maps|;
      var best: int, i := -1, 0;
      while i < |inodes.maps|
        invariant 0 <= i <= |inodes.maps| && -1 <= best < i
        invariant best == -1 ==> forall g :: 0 <= g < i ==> !Eligible(inodes, g)
        invariant best >= 0 ==> Eligible(inodes, best)
        invariant best >= 0 ==> forall g :: 0 <= g < i && Eligible(inodes, g) ==>
                    blocks.maps[g].clear <= blocks.maps[best].clear
        invariant best >= 0 ==> forall g :: 0 <= g < best && Eligible(inodes, g) ==>
                    blocks.maps[g].clear < blocks.maps[best].clear
      {
        if inodes.maps[i].clear != 0 && inodes.maps[i].clear >= average {
          if best == -1 || blocks.maps[i].clear > blocks.maps[best].clear {
            best := i;
          }
        }
        i := i + 1;
      }
      SomeEligible(inodes);
      group := if best == -1 then 0 else best;
    }

    /** The group for a new file: the one the parent is in, or the next one,
        cyclically, with a free inode. */
    method NearGroup(start: nat) returns (group: nat)
      requires Consistent(inodes) && start < |inodes.maps|
      ensures group < |inodes.maps|
      ensures NearestTo(inodes, start, group)
    {
      hide Consistent;
      ConsistentSum(inodes);
      SomeFree(inodes);
      group := start;
      var i := 0;
      while i < |inodes.maps| && inodes.maps[group].clear == 0
        invariant 0 <= i <= |inodes.maps| && 0 <= group < |inodes.maps|
        invariant group == if start + i < |inodes.maps| then start + i else start + i - |inodes.maps|
        invariant forall g :: 0 <= g < |inodes.maps| && (start <= g < start + i || g + |inodes.maps| < start + i)
                    ==> inodes.maps[g].clear == 0
      {
        group := group + 1;
        if group >= |inodes.maps| { group := 0; }
        i := i + 1;
      }
    }

    /** new_inode. A full table stops the program, which the model shows as
        None: exactly if the search from the chosen group's hint names nothing.
        What it names is free exactly if the search is not misled; with a sound
        hint it is the lowest free inode of the group, and only a full table
        that ends inside a word can mislead. */
    method NewInode(parent: nat, dir: bool) returns (r: Option<nat>, ghost group: nat, ghost index: nat)
      requires Consistent(inodes) && Consistent(blocks) && |blocks.maps| == |inodes.maps|
      requires parent < inodes.total
      modifies this`inodes
      ensures SameShape(old(inodes), inodes)
      ensures group < |old(inodes).maps| && old(inodes).maps[group].len <= |old(inodes).maps[group].bits|
      ensures dir && old(inodes).free > 0 ==> BestForDirectory(old(inodes), blocks, group)
      ensures !dir ==> old(inodes).per > 0 && NearestTo(old(inodes), GroupOf(old(inodes), parent), group)
      ensures old(inodes).free == 0 && dir ==> group == 0
      ensures var m := old(inodes).maps[group];
              && index == FindZero(m.bits, m.len, SearchStart(m)) <= m.len
              && (r.None? <==> index == m.len)
              && (r.Some? ==> r.value == Num(old(inodes), group, index))
              && (r.Some? ==> (r.value in FreeSet(old(inodes)) <==> !Misleads(m.bits, m.len, SearchStart(m))))
              && (r.Some? && !Misleads(m.bits, m.len, SearchStart(m)) ==>
                    Consistent(inodes) && FreeSet(inodes) == FreeSet(old(inodes)) - {r.value})
      ensures r.None? ==> Consistent(inodes) && FreeSet(inodes) == FreeSet(old(inodes))
      ensures r.None? && HintsSound(old(inodes)) ==> HintsSound(inodes)
      ensures HintSound(old(inodes).maps[group]) && old(inodes).free > 0 ==>
                r.Some? && LowestTaken(old(inodes), inodes, group, index)
      ensures HintSound(old(inodes).maps[group]) && old(inodes).free == 0 ==>
                var m := old(inodes).maps[group];
                && (r.Some? <==> SearchStart(m) < m.len && m.len % 32 != 0)
                && (r.Some? ==> r.value !in FreeSet(old(inodes)))
      ensures HintsSound(old(inodes)) && old(inodes).free > 0 ==> HintsSound(inodes)
      ensures HintsKnown(old(inodes)) ==> HintsKnown(inodes) && (r.None? ==> inodes == old(inodes))
    {
      hide Consistent, Num, GroupOf, IndexOf, IsFree, FreeSet, Misleads, HintsSound, FindZero, HintSound;
      ConsistentSum(inodes);
      Locate(inodes, parent);
      var g: nat;
      if dir {
        g := DirectoryGroup();
      } else {
        g := NearGroup(GroupOf(inodes, parent));
      }
      group := g;
      GroupHasFree(inodes, g, dir, parent);
      InodeFound(inodes, g);
      HintAt(inodes, g);
      var m := inodes.maps[g];
      var i := FindZero(m.bits, m.len, SearchStart(m));
      index := i;
      var hint := if m.hint != NO_HINT then m.hint else i;
      if i == m.len {
        HintNoted(inodes, g, hint);
        inodes := inodes.(maps := inodes.maps[g := m.(hint := hint)]);
        return None, group, index;
      }
      Outcome(inodes, g, i, hint);
      r := Some(Num(inodes, g, i));
      inodes := TakeAt(inodes, g, i, hint);
    }

    method FreeInode(ino: nat)
      requires Consistent(inodes) && ino < inodes.total && ino !in FreeSet(inodes)
      modifies this`inodes
      ensures Consistent(inodes) && FreeSet(inodes) == FreeSet(old(inodes)) + {ino} && SameShape(old(inodes), inodes)
      ensures HintsSound(old(inodes)) && HintsKnown(old(inodes)) ==> HintsSound(inodes) && HintsKnown(inodes)
    {
      hide Consistent, Num, GroupOf, IndexOf, FreeSet, HintsSound, HintsKnown, GiveAt;
      GiveNumber(inodes, ino);
      inodes := GiveAt(inodes, GroupOf(inodes, ino), IndexOf(inodes, ino));
    }
  }

  /** A group that may get a new directory. */
  ghost predicate Eligible(p: Pool, g: nat) {
    g < |p.maps| && p.maps[g].clear > 0 && p.maps[g].clear >= p.free / |p.maps|
  }

  /** Among the eligible groups, the first with the most free blocks. */
  ghost predicate BestForDirectory(inodes: Pool, blocks: Pool, group: nat) {
    && |blocks.maps| == |inodes.maps| && Eligible(inodes, group)
    && (forall g :: 0 <= g < |inodes.maps| && Eligible(inodes, g) ==> blocks.maps[g].clear <= blocks.maps[group].clear)
    && (forall g :: 0 <= g < group && Eligible(inodes, g) ==> blocks.maps[g].clear < blocks.maps[group].clear)
  }

  lemma {:induction false} SumAtMost(maps: seq<Map>, k: int)
    requires forall g :: 0 <= g < |maps| ==> maps[g].clear <= k
    ensures Sum(maps) <= |maps| * k
  {
    if maps != [] {
      SumAtMost(maps[..|maps| - 1], k);
      assert |maps| * k == (|maps| - 1) * k + k;
    }
  }

  /** Pigeonhole: if any inode is free, some group with a free one has at least
      the average. */
  lemma SomeEligible(p: Pool)
    requires Consistent(p)
    ensures p.free > 0 <==> exists g :: Eligible(p, g)
    ensures p.free >= 0
  {
    hide Consistent;
    ConsistentSum(p);
    SomeFree(p);
    var n := |p.maps|;
    var average := p.free / n;
    if p.free > 0 && forall g :: !Eligible(p, g) {
      var g :| 0 <= g < n && p.maps[g].clear > 0;
      assert !Eligible(p, g);
      forall g | 0 <= g < n ensures p.maps[g].clear <= average - 1 {
        assert !Eligible(p, g);
      }
      SumAtMost(p.maps, average - 1);
      DivFacts(p.free, n);
      AverageLines(n, average, p.free);
    }
  }

  lemma AverageLines(n: nat, average: int, free: int)
    requires n > 0 && average * n <= free
    ensures n * (average - 1) < free
  {
    assert n * (average - 1) == average * n - n;
  }

  lemma GiveNumber(p: Pool, b: nat)
    requires Consistent(p) && b < p.total && b !in FreeSet(p)
    ensures p.per > 0 && GroupOf(p, b) < |p.maps| && IndexOf(p, b) < |p.maps[GroupOf(p, b)].bits|
    ensures GiveOk(p, GiveAt(p, GroupOf(p, b), IndexOf(p, b)), b)
  {
    hide Consistent, Num, GroupOf, IndexOf, IsFree, GiveAt, HintsSound, HintsKnown;
    ConsistentSum(p);
    Locate(p, b);
    GiveStep(p, GroupOf(p, b), IndexOf(p, b), b);
  }

  ghost predicate GiveOk(p: Pool, p': Pool, b: nat) {
    && Consistent(p') && SameShape(p, p') && FreeSet(p') == FreeSet(p) + {b}
    && (HintsSound(p) && HintsKnown(p) ==> HintsSound(p') && HintsKnown(p'))
  }

  lemma GiveStep(p: Pool, g: nat, i: nat, b: nat)
    requires Consistent(p) && g < |p.maps| && i < p.maps[g].len <= |p.maps[g].bits| && b == Num(p, g, i)
    requires b < p.total && b !in FreeSet(p)
    ensures GiveOk(p, GiveAt(p, g, i), b)
  {
    hide Consistent, Num, GroupOf, IndexOf, IsFree;
    ConsistentFacts(p, g);
    IsFreeAt(p, g, i);
    GiveConsistent(p, g, i);
    if HintsSound(p) && HintsKnown(p) {
      GivenHint(p.maps[g], i);
    }
  }

  /** The group of a new file: the first from start on, and around, with a free
      inode; start itself if there is none. */
  ghost predicate NearestTo(p: Pool, start: nat, g: nat) {
    && start < |p.maps| && g < |p.maps|
    && (p.free > 0 ==> p.maps[g].clear > 0)
    && (p.free > 0 ==> forall x: nat :: x < |p.maps| && Before(start, g, x) ==> p.maps[x].clear == 0)
    && (p.free <= 0 ==> g == start)
  }

  /** The lowest clear position of group g was taken, and nothing else. */
  ghost predicate LowestTaken(p: Pool, p': Pool, g: nat, i: nat) {
    && Consistent(p')
    && g < |p.maps| && i < |p.maps[g].bits| && !p.maps[g].bits[i] && (forall k :: 0 <= k < i ==> p.maps[g].bits[k])
    && Num(p, g, i) in FreeSet(p) && FreeSet(p') == FreeSet(p) - {Num(p, g, i)}
  }

  /** A search that found nothing leaves a hint at the end of its group. */
  lemma HintNoted(p: Pool, g: nat, hint: nat)
    requires Consistent(p) && g < |p.maps| &&
             FindZero(p.maps[g].bits, p.maps[g].len, SearchStart(p.maps[g])) == p.maps[g].len
    requires hint == if p.maps[g].hint != NO_HINT then p.maps[g].hint else p.maps[g].len
    ensures var p' := p.(maps := p.maps[g := p.maps[g].(hint := hint)]);
            Consistent(p') && FreeSet(p') == FreeSet(p) && (HintsSound(p) ==> HintsSound(p'))
  {
    hide Consistent, Num, Sum, Clear;
    ConsistentFacts(p, g);
    var m := p.maps[g];
    var m' := m.(hint := hint);
    var p' := p.(maps := p.maps[g := m']);
    Replaced(p, g, m', p');
    Searched(m.bits, m.len, SearchStart(m));
    forall b | 0 <= b < p.total ensures IsFree(p', b) == IsFree(p, b) {
      Locate(p, b);
    }
  }

  lemma HintAt(p: Pool, g: nat)
    requires g < |p.maps|
    ensures HintsSound(p) ==> HintSound(p.maps[g])
  {}

  /** Either rule picks a group with a free inode if there is one at all. */
  lemma GroupHasFree(p: Pool, g: nat, dir: bool, parent: nat)
    requires Consistent(p) && g < |p.maps| && p.per > 0
    requires if dir then (p.free > 0 ==> Eligible(p, g)) else NearestTo(p, GroupOf(p, parent), g)
    ensures p.free >= 0 && (p.free > 0 <==> p.maps[g].clear > 0) && p.maps[g].clear >= 0
  {
    hide Consistent, GroupOf, FreeSet;
    ConsistentSum(p);
    SomeFree(p);
  }

  /** What the inode search in the chosen group finds. */
  lemma InodeFound(p: Pool, g: nat)
    requires Consistent(p) && g < |p.maps|
    ensures p.maps[g].len <= |p.maps[g].bits| && p.maps[g].len < NO_HINT
    ensures var m := p.maps[g]; var r := FindZero(m.bits, m.len, SearchStart(m));
            && r <= m.len
            && (r < m.len ==> (m.bits[r] <==> Misleads(m.bits, m.len, SearchStart(m))))
            && (HintSound(m) && m.clear > 0 ==> r < m.len && !m.bits[r] && forall i :: 0 <= i < r ==> m.bits[i])
            && (m.clear == 0 ==> (r < m.len <==> SearchStart(m) < m.len && m.len % 32 != 0))
            && (m.clear == 0 && r < m.len ==> m.bits[r])
  {
    hide Consistent;
    ConsistentFacts(p, g);
    var m := p.maps[g];
    Searched(m.bits, m.len, SearchStart(m));
    if m.clear > 0 && HintSound(m) {
      HintSearch(m);
    } else if m.clear == 0 {
      ClearZero(m.bits, m.len);
      if SearchStart(m) < m.len { ScanOver(m.bits, m.len, SearchStart(m), m.len); }
    }
  }

  lemma NoneLeft(p: Pool)
    requires Consistent(p) && Exhausted(p)
    ensures HintsSound(p) ==> FreeSet(p) == {}
    ensures HintsSound(p) ==> !HintMisled(p)
  {
    if HintsSound(p) {
      PassedOverIsFull(p);
      SoundHintsLead(p);
    }
  }

  /** What was found is what is chosen, and it is in use exactly if a search was
      misled. */
  lemma Decided(p: Pool, goal: nat, g: nat, i: nat, atGoal: bool)
    requires Consistent(p) && g < |p.maps| && i < p.maps[g].len <= |p.maps[g].bits| && p.per > 0
    requires if atGoal then
               AtGoal(p, goal, i) && g == StartGroup(p, goal) && (p.maps[g].bits[i] <==> GoalMisled(p, goal))
             else (forall j :: !AtGoal(p, goal, j)) && ByHint(p, StartGroup(p, goal), g, i) && !GoalMisled(p, goal)
                  && (p.maps[g].bits[i] <==> Misleads(p.maps[g].bits, p.maps[g].len, SearchStart(p.maps[g])))
    requires StartGroup(p, goal) < |p.maps|
    ensures Chosen(p, goal, g, i) && !NothingChosen(p, goal)
    ensures p.maps[g].bits[i] <==> Misled(p, goal)
    ensures HintsSound(p) ==> !HintChoiceMisled(p, goal)
  {
    hide Consistent, GroupOf, IndexOf, GoalMisled, AtGoal, StartGroup, Misleads, FindZero;
    if !atGoal {
      forall h: nat, j: nat | ByHint(p, StartGroup(p, goal), h, j) ensures h == g && j == i {
        ByHintUnique(p, StartGroup(p, goal), g, i, h, j);
      }
    }
    if HintsSound(p) { SoundHintsLead(p); }
  }

  /** Everything but bits, counts and hints stays. */
  ghost predicate SameShape(p: Pool, p': Pool) {
    && p'.per == p.per && p'.total == p.total && |p'.maps| == |p.maps|
    && forall g :: 0 <= g < |p.maps| ==> p'.maps[g].len == p.maps[g].len
  }

  lemma TakenInUse(p: Pool, g: nat, i: nat, hint: nat)
    requires Consistent(p) && g < |p.maps| && i < p.maps[g].len <= |p.maps[g].bits|
    ensures Num(p, g, i) !in FreeSet(TakeAt(p, g, i, hint))
  {
    hide Consistent, Num;
    Numbered(p, g, i);
    assert !IsFree(TakeAt(p, g, i, hint), Num(p, g, i));
  }

  /** What taking the found position amounts to. */
  lemma Outcome(p: Pool, g: nat, i: nat, hint: nat)
    requires Consistent(p) && g < |p.maps| && i < p.maps[g].len <= |p.maps[g].bits|
    requires hint == p.maps[g].hint || (hint == i && p.maps[g].hint == NO_HINT)
    ensures Num(p, g, i) in FreeSet(p) <==> !p.maps[g].bits[i]
    ensures Num(p, g, i) < p.total && Num(p, g, i) !in FreeSet(TakeAt(p, g, i, hint))
    ensures !p.maps[g].bits[i] ==>
              && Consistent(TakeAt(p, g, i, hint))
              && FreeSet(TakeAt(p, g, i, hint)) == FreeSet(p) - {Num(p, g, i)}
    ensures !p.maps[g].bits[i] && HintsSound(p) &&
            (hint == p.maps[g].hint || forall k :: 0 <= k < i ==> p.maps[g].bits[k]) ==>
              HintsSound(TakeAt(p, g, i, hint))
    ensures HintsSound(p) ==> !HintMisled(p)
    ensures HintsKnown(p) ==> HintsKnown(TakeAt(p, g, i, hint))
  {
    hide Consistent, Num, GroupOf, IndexOf, IsFree;
    ConsistentFacts(p, g);
    IsFreeAt(p, g, i);
    Numbered(p, g, i);
    TakenInUse(p, g, i, hint);
    if !p.maps[g].bits[i] {
      TakeConsistent(p, g, i, hint);
      if HintsSound(p) && (hint == p.maps[g].hint || forall k :: 0 <= k < i ==> p.maps[g].bits[k]) {
        TakeKeepsHints(p, g, i, hint);
      }
    }
    if HintsSound(p) { SoundHintsLead(p); }
  }
}
