/** NASM's open-addressing hash table, src/bin/as/hashtbl.c: double hashing with
    an odd stride over a power-of-two number of slots, doubled when more than
    half full. */
module HashTable {

  import opened Arith

  /** data stands for a pointer; a slot without a key is empty. */
  datatype Node = Empty | Used(hash: nat, key: string, data: nat)

  // ----- the probe sequence ----------------------------------------------------

  function Start(size: nat, hash: nat): nat
    requires size > 0
  {
    hash % size
  }

  function Stride(size: nat, hash: nat): nat
    requires size > 0
  {
    OrOne(hash / 0x1_0000_0000 % size)
  }

  function OrOne(x: nat): (r: nat)
    ensures r % 2 == 1
  {
    if x % 2 == 0 then x + 1 else x
  }

  /** The slot that probe number j looks at. */
  function Probe(size: nat, hash: nat, j: nat): (r: nat)
    requires size > 0
    ensures r < size
  {
    (Start(size, hash) + j * Stride(size, hash)) % size
  }

  lemma ProbeStep(size: nat, hash: nat, j: nat)
    requires size > 0
    ensures Probe(size, hash, 0) == Start(size, hash)
    ensures Probe(size, hash, j + 1) == (Probe(size, hash, j) + Stride(size, hash)) % size
  {
    hide Stride;
    StepLines(Start(size, hash), Stride(size, hash), j, size);
  }

  lemma StepLines(s: nat, t: nat, j: nat, m: nat)
    requires s < m
    ensures (s + 0 * t) % m == s
    ensures (s + (j + 1) * t) % m == ((s + j * t) % m + t) % m
  {
    DivModUnique(s, 0, s, m);
    AddModulo(s + j * t, t, m);
    MulStep(j, t);
  }

  lemma AddModulo(x: nat, y: nat, m: nat)
    requires m > 0
    ensures (x + y) % m == (x % m + y) % m
  {
    var q, r := x / m, x % m;
    DivFacts(x, m);
    var q2, r2 := (r + y) / m, (r + y) % m;
    DivFacts(r + y, m);
    assert x + y == (q + q2) * m + r2 by { assert (q + q2) * m == q * m + q2 * m; }
    DivModUnique(x + y, q + q2, r2, m);
  }

  /** A power of two that divides d times an odd number divides d. */
  lemma {:induction false} OddCancels(size: nat, d: nat, odd: nat, q: nat)
    requires PowerOfTwo(size) && odd % 2 == 1 && d * odd == q * size
    ensures d % size == 0
    decreases size
  {
    if size > 1 {
      EvenFactor(d, odd, q, size);
      var e, half := d / 2, size / 2;
      assert e * odd == q * half by { Halves(d, odd, q, size); }
      OddCancels(half, e, odd, q);
      DivFacts(e, half);
      assert d == e / half * size by { assert e == e / half * half; assert e / half * size == 2 * (e / half * half); }
      DivModUnique(d, e / half, 0, size);
    }
  }

  lemma Parity(d: nat, odd: nat)
    requires odd % 2 == 1
    ensures d * odd % 2 == d % 2
  {
    assert d * odd == 2 * (d * (odd / 2)) + d by { assert odd == 2 * (odd / 2) + 1; }
  }

  lemma EvenFactor(d: nat, odd: nat, q: nat, size: nat)
    requires odd % 2 == 1 && size % 2 == 0 && d * odd == q * size
    ensures d % 2 == 0
  {
    Parity(d, odd);
    assert q * size == 2 * (q * (size / 2)) by { assert size == 2 * (size / 2); }
  }

  lemma Halves(d: nat, odd: nat, q: nat, size: nat)
    requires d % 2 == 0 && size % 2 == 0 && d * odd == q * size
    ensures d / 2 * odd == q * (size / 2)
  {
    assert d * odd == 2 * (d / 2 * odd) by { assert d == 2 * (d / 2); }
    assert q * size == 2 * (q * (size / 2)) by { assert size == 2 * (size / 2); }
  }

  lemma CollisionLines(s: nat, t: nat, i: nat, j: nat, m: nat)
    requires m > 0 && i < j && (s + i * t) % m == (s + j * t) % m
    ensures exists q: nat :: (j - i) * t == q * m
  {
    var x, y := s + i * t, s + j * t;
    DivFacts(x, m);
    DivFacts(y, m);
    assert (j - i) * t == j * t - i * t;
    DivMonotone(x, y, m) by { assert (j - i) * t >= 0; }
    var q: nat := y / m - x / m;
    assert q * m == y / m * m - x / m * m;
    assert (j - i) * t == q * m;
  }

  /** An odd stride does not come back to a slot within size probes. */
  lemma ProbesDistinct(size: nat, hash: nat, i: nat, j: nat)
    requires PowerOfTwo(size) && i < j < size
    ensures size > 0 && Probe(size, hash, i) != Probe(size, hash, j)
  {
    hide PowerOfTwo, Stride, Start;
    var s, t := Start(size, hash), Stride(size, hash);
    if Probe(size, hash, i) == Probe(size, hash, j) {
      CollisionLines(s, t, i, j, size);
      var q: nat :| (j - i) * t == q * size;
      StrideOdd(size, hash);
      OddCancels(size, j - i, t, q);
      DivModUnique(j - i, 0, j - i, size);
    }
  }

  lemma StrideOdd(size: nat, hash: nat)
    requires size > 0
    ensures Stride(size, hash) % 2 == 1
  {}

  ghost function Visited(size: nat, hash: nat, n: nat): set<nat>
    requires size > 0
  {
    if n == 0 then {} else Visited(size, hash, n - 1) + {Probe(size, hash, n - 1)}
  }

  lemma {:induction false} VisitedAt(size: nat, hash: nat, n: nat, x: nat) returns (j: nat)
    requires size > 0 && x in Visited(size, hash, n)
    ensures j < n && Probe(size, hash, j) == x
  {
    hide Probe;
    if x == Probe(size, hash, n - 1) { return n - 1; }
    j := VisitedAt(size, hash, n - 1, x);
  }

  lemma {:induction false} NotVisited(size: nat, hash: nat, m: nat, n: nat)
    requires PowerOfTwo(size) && m <= n < size
    ensures Probe(size, hash, n) !in Visited(size, hash, m)
  {
    hide PowerOfTwo, Probe;
    if m > 0 {
      NotVisited(size, hash, m - 1, n);
      ProbesDistinct(size, hash, m - 1, n);
    }
  }

  lemma {:induction false} VisitedSize(size: nat, hash: nat, n: nat)
    requires PowerOfTwo(size) && n <= size
    ensures size > 0 && |Visited(size, hash, n)| == n && Visited(size, hash, n) <= Below(size)
  {
    hide PowerOfTwo, Probe;
    PowerOfTwoPositive(size);
    if n > 0 {
      VisitedSize(size, hash, n - 1);
      NotVisited(size, hash, n - 1, n - 1);
    }
  }

  lemma PowerOfTwoPositive(c: nat)
    requires PowerOfTwo(c)
    ensures c > 0
  {}

  /** The first size probes reach every slot. */
  lemma ProbesCover(size: nat, hash: nat, slot: nat) returns (j: nat)
    requires PowerOfTwo(size) && slot < size
    ensures size > 0 && j < size && Probe(size, hash, j) == slot
  {
    hide PowerOfTwo, Probe;
    PowerOfTwoPositive(size);
    var v := Visited(size, hash, size);
    VisitedSize(size, hash, size);
    if slot !in v { SubsetSize(v + {slot}, Below(size)); }
    j := VisitedAt(size, hash, size, slot);
  }

  // ----- tables ------------------------------------------------------------------

  /** hash_find compares keys as they are, hash_findi folds their case first; sum
      is the CRC of the folded key. */
  datatype Hashing = Hashing(fold: string -> string, sum: string -> nat)
  {
    function Calc(key: string): nat { sum(fold(key)) }
  }

  ghost function UsedSlots(t: seq<Node>): set<nat> {
    set i: nat | i < |t| && t[i].Used?
  }

  /** Probe number n is this slot, and every probe before it is taken. */
  ghost predicate Leads(t: seq<Node>, hash: nat, n: nat, slot: nat) {
    && |t| > 0 && slot < |t| && Probe(|t|, hash, n) == slot
    && forall j: nat :: j < n ==> t[Probe(|t|, hash, j)].Used?
  }

  ghost predicate Reachable(t: seq<Node>, slot: nat) {
    slot < |t| && t[slot].Used? && exists n: nat :: Leads(t, t[slot].hash, n, slot)
  }

  ghost predicate DistinctKeys(f: Hashing, t: seq<Node>) {
    forall i, j :: 0 <= i < j < |t| && t[i].Used? && t[j].Used? ==> f.fold(t[i].key) != f.fold(t[j].key)
  }

  ghost predicate TableOk(f: Hashing, t: seq<Node>) {
    && PowerOfTwo(|t|) && |t| > 0 && DistinctKeys(f, t)
    && forall i: nat :: i < |t| && t[i].Used? ==> t[i].hash == f.Calc(t[i].key) && Reachable(t, i)
  }

  /** The finite map that a table stands for. */
  ghost function Contents(f: Hashing, t: seq<Node>): (m: map<string, nat>)
    requires DistinctKeys(f, t)
    ensures forall i :: 0 <= i < |t| && t[i].Used? ==> f.fold(t[i].key) in m && m[f.fold(t[i].key)] == t[i].data
    ensures forall k :: k in m ==> exists i :: 0 <= i < |t| && t[i].Used? && f.fold(t[i].key) == k
  {
    map i | 0 <= i < |t| && t[i].Used? :: f.fold(t[i].key) := t[i].data
  }

  /** A search that meets a free slot before the key proves its absence. */
  lemma Missing(f: Hashing, t: seq<Node>, key: string, n: nat, slot: nat)
    requires TableOk(f, t) && Leads(t, f.Calc(key), n, slot) && t[slot].Empty?
    requires forall j: nat :: j < n ==> f.fold(t[Probe(|t|, f.Calc(key), j)].key) != f.fold(key)
    ensures f.fold(key) !in Contents(f, t)
  {
    hide PowerOfTwo, Probe, Contents;
    forall i: nat | i < |t| && t[i].Used?
      ensures f.fold(t[i].key) != f.fold(key)
    {
      if t[i].hash == f.Calc(key) {
        assert Reachable(t, i);
        var m: nat :| Leads(t, t[i].hash, m, i);
        ReachedBefore(t, t[i].hash, m, i, n, slot);
      }
    }
  }

  lemma ReachedBefore(t: seq<Node>, hash: nat, m: nat, i: nat, n: nat, slot: nat)
    requires Leads(t, hash, m, i) && Leads(t, hash, n, slot) && t[i].Used? && t[slot].Empty?
    ensures m < n
  {}

  lemma LeadsStill(t: seq<Node>, slot: nat, node: Node, hash: nat, n: nat, i: nat)
    requires Leads(t, hash, n, i) && slot < |t| && node.Used?
    ensures Leads(t[slot := node], hash, n, i)
  {}

  ghost predicate Vacant(f: Hashing, t: seq<Node>, key: string, slot: nat) {
    && slot < |t| && t[slot].Empty? && (exists n: nat :: Leads(t, f.Calc(key), n, slot))
    && forall i :: 0 <= i < |t| && t[i].Used? ==> f.fold(t[i].key) != f.fold(key)
  }

  lemma Inserted(f: Hashing, t: seq<Node>, slot: nat, node: Node)
    requires TableOk(f, t) && node.Used? && node.hash == f.Calc(node.key) && Vacant(f, t, node.key, slot)
    ensures TableOk(f, t[slot := node])
    ensures Contents(f, t[slot := node]) == Contents(f, t)[f.fold(node.key) := node.data]
    ensures UsedSlots(t[slot := node]) == UsedSlots(t) + {slot} && slot !in UsedSlots(t)
  {
    hide PowerOfTwo, Probe, Leads, Contents;
    var t' := t[slot := node];
    forall i: nat | i < |t'| && t'[i].Used?
      ensures t'[i].hash == f.Calc(t'[i].key) && Reachable(t', i)
    {
      var n: nat :| Leads(t, t'[i].hash, n, i);
      LeadsStill(t, slot, node, t'[i].hash, n, i);
    }
    MapEqual(Contents(f, t'), Contents(f, t)[f.fold(node.key) := node.data]) by {
      InsertedKeys(f, t, slot, node);
    }
  }

  lemma MapEqual(a: map<string, nat>, b: map<string, nat>)
    requires forall k :: k in a <==> k in b
    requires forall k :: k in a && k in b ==> a[k] == b[k]
    ensures a == b
  {}

  lemma InsertedKeys(f: Hashing, t: seq<Node>, slot: nat, node: Node)
    requires DistinctKeys(f, t) && DistinctKeys(f, t[..]) && node.Used? && Vacant(f, t, node.key, slot)
    ensures DistinctKeys(f, t[slot := node])
    ensures forall k :: k in Contents(f, t[slot := node]) <==> k in Contents(f, t) || k == f.fold(node.key)
    ensures forall k :: k in Contents(f, t[slot := node]) ==>
              Contents(f, t[slot := node])[k] == if k == f.fold(node.key) then node.data else Contents(f, t)[k]
  {
    hide Leads, Contents;
    var t' := t[slot := node];
    var c, c' := Contents(f, t), Contents(f, t');
    forall k
      ensures k in c' <==> k in c || k == f.fold(node.key)
      ensures k in c' ==> c'[k] == if k == f.fold(node.key) then node.data else c[k]
    {
      assert t'[slot] == node;
      if k in c' {
        var i :| 0 <= i < |t'| && t'[i].Used? && f.fold(t'[i].key) == k;
        assert i != slot ==> t[i] == t'[i];
      }
      if k in c {
        var i :| 0 <= i < |t| && t[i].Used? && f.fold(t[i].key) == k;
        assert i != slot && t'[i] == t[i];
      }
    }
  }

  lemma AllUsed(t: seq<Node>)
    requires forall i: nat :: i < |t| ==> t[i].Used?
    ensures |UsedSlots(t)| == |t|
  {
    assert UsedSlots(t) == Below(|t|);
  }

  /** A table that is not full has a free slot on every probe path. */
  lemma FreeOnPath(t: seq<Node>, hash: nat) returns (e: nat)
    requires PowerOfTwo(|t|) && |UsedSlots(t)| < |t|
    ensures |t| > 0 && e < |t| && t[Probe(|t|, hash, e)].Empty?
  {
    hide PowerOfTwo, Probe;
    PowerOfTwoPositive(|t|);
    if forall i: nat :: i < |t| ==> t[i].Used? { AllUsed(t); }
    var slot: nat :| slot < |t| && t[slot].Empty?;
    e := ProbesCover(|t|, hash, slot);
  }

  // ----- the operations -------------------------------------------------------------

  /** hash_pos and hash_inc, by mask. */
  lemma MaskedStart(size: nat, hash: nat)
    requires PowerOfTwo(size)
    ensures size > 0 && And(hash, size - 1) == Start(size, hash)
    ensures OrOne(And(hash / 0x1_0000_0000, size - 1)) == Stride(size, hash)
  {
    MaskModulo(hash, size);
    MaskModulo(hash / 0x1_0000_0000, size);
  }

  method Step(size: nat, hash: nat, pos: nat, inc: nat, ghost j: nat) returns (next: nat)
    requires PowerOfTwo(size) && size > 0 && pos == Probe(size, hash, j) && inc == Stride(size, hash)
    ensures next == Probe(size, hash, j + 1)
  {
    hide PowerOfTwo, Probe, And, Stride;
    next := And(pos + inc, size - 1);
    MaskModulo(pos + inc, size);
    ProbeStep(size, hash, j);
  }

  /** The rehash probe: the first free slot on the path of hash. */
  method FreeSlot(t: seq<Node>, hash: nat) returns (pos: nat, ghost n: nat)
    requires PowerOfTwo(|t|) && |UsedSlots(t)| < |t|
    ensures pos < |t| && t[pos].Empty? && Leads(t, hash, n, pos)
  {
    hide PowerOfTwo, Probe, Stride, And, UsedSlots;
    ghost var e := FreeOnPath(t, hash);
    MaskedStart(|t|, hash);
    ProbeStep(|t|, hash, 0);
    pos := And(hash, |t| - 1);
    var inc := OrOne(And(hash / 0x1_0000_0000, |t| - 1));
    n := 0;
    while t[pos].Used?
      invariant n <= e && Leads(t, hash, n, pos)
      decreases e - n
    {
      pos := Step(|t|, hash, pos, inc, n);
      n := n + 1;
    }
  }

  datatype Insert = Insert(hash: nat, where: nat)

  datatype Found = At(slot: nat) | Absent(insert: Insert)

  /** Where a node with a new key goes, and what the table then maps. */
  method Place(f: Hashing, t: seq<Node>, node: Node) returns (pos: nat)
    requires TableOk(f, t) && DistinctKeys(f, t) && |UsedSlots(t)| < |t|
    requires node.Used? && node.hash == f.Calc(node.key)
    requires forall j :: 0 <= j < |t| && t[j].Used? ==> f.fold(t[j].key) != f.fold(node.key)
    ensures pos < |t| && t[pos].Empty?
    ensures TableOk(f, t[pos := node]) && DistinctKeys(f, t[pos := node])
    ensures Contents(f, t[pos := node]) == Contents(f, t)[f.fold(node.key) := node.data]
    ensures |UsedSlots(t[pos := node])| == |UsedSlots(t)| + 1
  {
    hide PowerOfTwo, Leads, Probe, TableOk, Contents, UsedSlots;
    Distinct(f, t);
    ghost var n;
    pos, n := FreeSlot(t, node.hash);
    Inserted(f, t, pos, node);
    Distinct(f, t[pos := node]);
  }

  /** Moves every node of t to a table of the given size, and follows slot np. */
  method Rehash(f: Hashing, t: seq<Node>, newsize: nat, np: nat) returns (r: seq<Node>, xp: nat)
    requires TableOk(f, t) && PowerOfTwo(newsize) && |UsedSlots(t)| < newsize && np < |t| && t[np].Used?
    ensures TableOk(f, r) && |r| == newsize && |UsedSlots(r)| == |UsedSlots(t)|
    ensures Contents(f, r) == Contents(f, t)
    ensures xp < |r| && r[xp] == t[np]
  {
    hide PowerOfTwo, Leads, Probe, TableOk, Contents, UsedSlots, DistinctKeys;
    r := EmptyTable(newsize);
    xp := np;
    EmptyTableOk(f, newsize);
    Distinct(f, t);
    for i := 0 to |t|
      invariant TableOk(f, r) && |r| == newsize
      invariant DistinctKeys(f, r) && DistinctKeys(f, t[..i])
      invariant Contents(f, r) == Contents(f, t[..i])
      invariant |UsedSlots(r)| == |UsedSlots(t[..i])|
      invariant if np < i then xp < |r| && r[xp] == t[np] else xp == np
    {
      Snoc(f, t, i);
      SnocUsed(t, i);
      if t[i].Used? {
        UsedPrefix(t, i);
        NodeOk(f, t, i);
        FreshKey(f, r, t, i);
        var pos := Place(f, r, t[i]);
        r := r[pos := t[i]];
        if i == np { xp := pos; }
      }
    }
    assert t[..|t|] == t;
  }

  function EmptyTable(size: nat): (r: seq<Node>)
    ensures |r| == size && forall i :: 0 <= i < size ==> r[i].Empty?
  {
    seq(size, _ => Empty)
  }

  lemma EmptyTableOk(f: Hashing, size: nat)
    requires PowerOfTwo(size)
    ensures TableOk(f, EmptyTable(size)) && UsedSlots(EmptyTable(size)) == {} && UsedSlots([]) == {}
    ensures DistinctKeys(f, []) && DistinctKeys(f, EmptyTable(size))
    ensures Contents(f, EmptyTable(size)) == map[] && Contents(f, []) == map[]
  {}

  lemma Distinct(f: Hashing, t: seq<Node>)
    requires TableOk(f, t)
    ensures DistinctKeys(f, t) && |t| > 0 && PowerOfTwo(|t|)
  {}

  lemma NodeOk(f: Hashing, t: seq<Node>, i: nat)
    requires TableOk(f, t) && i < |t| && t[i].Used?
    ensures t[i].hash == f.Calc(t[i].key)
  {}

  /** One more slot of the old table. */
  lemma Snoc(f: Hashing, t: seq<Node>, i: nat)
    requires DistinctKeys(f, t) && i < |t|
    ensures DistinctKeys(f, t[..i]) && DistinctKeys(f, t[..i + 1])
    ensures Contents(f, t[..i + 1]) ==
            if t[i].Used? then Contents(f, t[..i])[f.fold(t[i].key) := t[i].data] else Contents(f, t[..i])
  {
    hide Contents;
    var a, b := t[..i], t[..i + 1];
    var c, d := Contents(f, a), Contents(f, b);
    forall k
      ensures k in d <==> k in c || (t[i].Used? && k == f.fold(t[i].key))
      ensures k in d ==> d[k] == if t[i].Used? && k == f.fold(t[i].key) then t[i].data else c[k]
    {
      assert b[i] == t[i];
      if k in d {
        var j :| 0 <= j < |b| && b[j].Used? && f.fold(b[j].key) == k;
        assert j < i ==> a[j] == b[j];
      }
      if k in c {
        var j :| 0 <= j < |a| && a[j].Used? && f.fold(a[j].key) == k;
        assert b[j] == a[j];
      }
    }
    MapEqual(d, if t[i].Used? then c[f.fold(t[i].key) := t[i].data] else c);
  }

  lemma SnocUsed(t: seq<Node>, i: nat)
    requires i < |t|
    ensures UsedSlots(t[..i + 1]) == if t[i].Used? then UsedSlots(t[..i]) + {i} else UsedSlots(t[..i])
    ensures i !in UsedSlots(t[..i])
  {}

  lemma UsedPrefix(t: seq<Node>, i: nat)
    requires i < |t| && t[i].Used?
    ensures |UsedSlots(t[..i])| < |UsedSlots(t)|
  {
    assert i !in UsedSlots(t[..i]);
    SubsetSize(UsedSlots(t[..i]) + {i}, UsedSlots(t));
  }

  lemma FreshKey(f: Hashing, r: seq<Node>, t: seq<Node>, i: nat)
    requires DistinctKeys(f, r) && DistinctKeys(f, t) && i < |t| && t[i].Used?
    requires DistinctKeys(f, t[..i]) && Contents(f, r) == Contents(f, t[..i])
    ensures forall j :: 0 <= j < |r| && r[j].Used? ==> f.fold(r[j].key) != f.fold(t[i].key)
  {
    forall j | 0 <= j < |r| && r[j].Used?
      ensures f.fold(r[j].key) != f.fold(t[i].key)
    {
      assert f.fold(r[j].key) in Contents(f, t[..i]);
    }
  }

  lemma FoundAt(f: Hashing, t: seq<Node>, key: string, i: nat)
    requires TableOk(f, t) && i < |t| && t[i].Used? && f.fold(t[i].key) == f.fold(key)
    ensures f.fold(key) in Contents(f, t) && Contents(f, t)[f.fold(key)] == t[i].data
  {}

  lemma SameHash(f: Hashing, t: seq<Node>, key: string, i: nat)
    requires TableOk(f, t) && i < |t| && t[i].Used? && f.fold(t[i].key) == f.fold(key)
    ensures t[i].hash == f.Calc(key)
  {}

  lemma NowVacant(f: Hashing, t: seq<Node>, key: string, n: nat, slot: nat)
    requires TableOk(f, t) && Leads(t, f.Calc(key), n, slot) && t[slot].Empty? && f.fold(key) !in Contents(f, t)
    ensures Vacant(f, t, key, slot)
  {
    hide Probe, PowerOfTwo;
  }

  class Table {
    const f: Hashing
    var table: seq<Node>
    var load: nat
    var maxLoad: nat

    ghost predicate Valid()
      reads this
    {
      && TableOk(f, table) && DistinctKeys(f, table)
      && load == |UsedSlots(table)| && maxLoad == |table| / 2 && load <= maxLoad
    }

    ghost function Map(): map<string, nat>
      requires Valid()
      reads this
    {
      Contents(f, table)
    }

    /** hash_init */
    constructor (f: Hashing, size: nat)
      requires PowerOfTwo(size)
      ensures Valid() && this.f == f && |table| == size && Map() == map[]
    {
      this.f := f;
      table := EmptyTable(size);
      load := 0;
      maxLoad := size / 2;
      EmptyTableOk(f, size);
    }

    /** hash_find and hash_findi. */
    method Find(key: string) returns (r: Found)
      requires Valid()
      ensures r.At? <==> f.fold(key) in Map()
      ensures r.At? ==> r.slot < |table| && table[r.slot].Used? && f.fold(table[r.slot].key) == f.fold(key)
      ensures r.At? ==> table[r.slot].data == Map()[f.fold(key)]
      ensures r.Absent? ==> r.insert.hash == f.Calc(key) && Vacant(f, table, key, r.insert.where)
    {
      hide TableOk, PowerOfTwo, Probe, Stride, And, UsedSlots, Contents;
      var hash := f.Calc(key);
      Distinct(f, table);
      HalfFull(|table|);
      ghost var e := FreeOnPath(table, hash);
      MaskedStart(|table|, hash);
      ProbeStep(|table|, hash, 0);
      var pos := And(hash, |table| - 1);
      var inc := OrOne(And(hash / 0x1_0000_0000, |table| - 1));
      ghost var n := 0;
      while table[pos].Used?
        invariant n <= e && Leads(table, hash, n, pos)
        invariant forall j: nat :: j < n ==> f.fold(table[Probe(|table|, hash, j)].key) != f.fold(key)
        decreases e - n
      {
        if hash == table[pos].hash && f.fold(key) == f.fold(table[pos].key) {
          FoundAt(f, table, key, pos);
          return At(pos);
        }
        if f.fold(table[pos].key) == f.fold(key) { SameHash(f, table, key, pos); }
        pos := Step(|table|, hash, pos, inc, n);
        n := n + 1;
      }
      Missing(f, table, key, n, pos);
      NowVacant(f, table, key, n, pos);
      return Absent(Insert(hash, pos));
    }

    /** hash_add, with the insertion point of a failed search: the table maps one
        key more, and the result is the new node's slot even after growth. */
    method Add(insert: Insert, key: string, data: nat) returns (slot: nat)
      requires Valid() && insert.hash == f.Calc(key) && Vacant(f, table, key, insert.where)
      modifies this
      ensures Valid() && Map() == old(Map())[f.fold(key) := data]
      ensures slot < |table| && table[slot] == Used(insert.hash, key, data)
      ensures |table| == if old(load) + 1 > |old(table)| / 2 then 2 * |old(table)| else |old(table)|
    {
      hide TableOk, PowerOfTwo, Probe, UsedSlots, Contents, Vacant;
      Inserted(f, table, insert.where, Used(insert.hash, key, data));
      VacantIn(f, table, key, insert.where);
      slot := insert.where;
      table := table[slot := Used(insert.hash, key, data)];
      Distinct(f, table);
      load := load + 1;
      if load > maxLoad {
        Doubled(|table|);
        var t, xp := Rehash(f, table, 2 * |table|, slot);
        slot := xp;
        table := t;
        maxLoad := |table| / 2;
        Distinct(f, table);
      }
    }

    /** hash_iterate: the first used slot from i on, and where to go on. */
    method Iterate(i: nat) returns (slot: int, next: nat)
      requires i <= |table|
      ensures slot == -1 ==> forall j :: i <= j < |table| ==> table[j].Empty?
      ensures slot != -1 ==> i <= slot < |table| && table[slot].Used? && next == slot + 1
      ensures slot != -1 ==> forall j :: i <= j < slot ==> table[j].Empty?
    {
      var np := i;
      while np < |table|
        invariant i <= np <= |table| && forall j :: i <= j < np ==> table[j].Empty?
      {
        if table[np].Used? { return np, np + 1; }
        np := np + 1;
      }
      return -1, 0;
    }
  }

  // ----- whole runs ---------------------------------------------------------------

  /** A key to look up, and the data to enter for it if it is missing. */
  datatype Request = Request(key: string, data: nat)

  function MapAfter(f: Hashing, m: map<string, nat>, reqs: seq<Request>): map<string, nat> {
    if reqs == [] then m else
    var now, r := MapAfter(f, m, reqs[..|reqs| - 1]), reqs[|reqs| - 1];
    if f.fold(r.key) in now then now else now[f.fold(r.key) := r.data]
  }

  /** For every request the data that the key maps to once it is served: what was
      entered for it first. */
  function Answers(f: Hashing, m: map<string, nat>, reqs: seq<Request>): (r: seq<nat>)
    ensures |r| == |reqs|
  {
    if reqs == [] then [] else
    var n := |reqs| - 1;
    var now := MapAfter(f, m, reqs[..n]);
    Answers(f, m, reqs[..n]) + [if f.fold(reqs[n].key) in now then now[f.fold(reqs[n].key)] else reqs[n].data]
  }

  /** Every run of searches, each followed by an insertion if it failed, on a table
      of any size that grows as it must: the slots found or returned hold what a
      finite map would. */
  method FindOrAdd(t: Table, reqs: seq<Request>) returns (answers: seq<nat>)
    requires t.Valid()
    modifies t
    ensures t.Valid() && t.Map() == MapAfter(t.f, old(t.Map()), reqs)
    ensures answers == Answers(t.f, old(t.Map()), reqs)
  {
    hide TableOk, DistinctKeys, UsedSlots, Contents, Vacant;
    answers := [];
    ghost var m := t.Map();
    assert reqs[..0] == [];
    for i := 0 to |reqs|
      invariant t.Valid() && t.Map() == MapAfter(t.f, m, reqs[..i])
      invariant answers == Answers(t.f, m, reqs[..i])
    {
      assert reqs[..i + 1][..i] == reqs[..i];
      var found := t.Find(reqs[i].key);
      var slot;
      if found.At? {
        slot := found.slot;
      } else {
        slot := t.Add(found.insert, reqs[i].key, reqs[i].data);
      }
      answers := answers + [t.table[slot].data];
    }
    assert reqs[..|reqs|] == reqs;
  }

  /** From an empty table a key maps to what was entered for it first. */
  lemma {:induction false} FirstWins(f: Hashing, reqs: seq<Request>, i: nat)
    requires i < |reqs| && forall j :: 0 <= j < i ==> f.fold(reqs[j].key) != f.fold(reqs[i].key)
    ensures f.fold(reqs[i].key) in MapAfter(f, map[], reqs)
    ensures MapAfter(f, map[], reqs)[f.fold(reqs[i].key)] == reqs[i].data
    decreases |reqs|
  {
    var n := |reqs| - 1;
    if i < n {
      FirstWins(f, reqs[..n], i);
    } else {
      OnlyEntered(f, reqs[..n], f.fold(reqs[i].key));
    }
  }

  lemma {:induction false} OnlyEntered(f: Hashing, reqs: seq<Request>, k: string)
    ensures k in MapAfter(f, map[], reqs) <==> exists j :: 0 <= j < |reqs| && f.fold(reqs[j].key) == k
    decreases |reqs|
  {
    if reqs != [] {
      var n := |reqs| - 1;
      OnlyEntered(f, reqs[..n], k);
      if f.fold(reqs[n].key) == k {
        assert f.fold(reqs[n].key) == k;
      }
      if j :| 0 <= j < n && f.fold(reqs[..n][j].key) == k { assert f.fold(reqs[j].key) == k; }
    }
  }

  lemma HalfFull(size: nat)
    requires size > 0
    ensures size / 2 < size
  {}

  lemma Doubled(size: nat)
    requires PowerOfTwo(size)
    ensures PowerOfTwo(2 * size) && size > 0 && size / 2 + 1 < 2 * size && size / 2 + 1 <= 2 * size / 2
  {
    assert 2 * size / 2 == size;
  }

  lemma VacantIn(f: Hashing, t: seq<Node>, key: string, slot: nat)
    requires Vacant(f, t, key, slot)
    ensures slot < |t|
  {}
}
