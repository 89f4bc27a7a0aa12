/** Disk blocks as bytes, and directory pages as arrays of 32-bit little-endian
    block pointers laid over those bytes. */
module PointerPage {

  type byte = x: int | 0 <= x < 256

  type Block = seq<byte>

  const WORD: nat := 0x1_0000_0000

  function ZeroBytes(n: nat): (z: Block)
    ensures |z| == n
    ensures forall k :: 0 <= k < n ==> z[k] == 0
  {
    seq<byte>(n, k => 0)
  }

  function Ptr(p: Block, c: nat): nat
    requires 4 * c + 4 <= |p|
  {
    var b0: int, b1: int, b2: int, b3: int := p[4 * c], p[4 * c + 1], p[4 * c + 2], p[4 * c + 3];
    b0 + 0x100 * b1 + 0x1_0000 * b2 + 0x100_0000 * b3
  }

  function PtrBytes(v: nat): Block
    requires v < WORD
  {
    [v % 0x100, v / 0x100 % 0x100, v / 0x1_0000 % 0x100, v / 0x100_0000]
  }

  /** All pointers of a page. */
  function Ptrs(p: Block): (s: seq<nat>)
    ensures |s| == |p| / 4
    ensures forall c :: 0 <= c < |s| ==> s[c] == Ptr(p, c)
  {
    seq<nat>(|p| / 4, c requires 0 <= c < |p| / 4 => Ptr(p, c))
  }

  function SetPtr(p: Block, c: nat, v: nat): Block
    requires 4 * c + 4 <= |p| && v < WORD
  {
    p[..4 * c] + PtrBytes(v) + p[4 * c + 4..]
  }

  /** memset over a range of pointers. */
  function ClearPtrs(p: Block, from: nat, count: nat): Block
    requires 4 * (from + count) <= |p|
  {
    p[..4 * from] + ZeroBytes(4 * count) + p[4 * (from + count)..]
  }

  /** The number that bytes spell, the lowest first. */
  function LittleEndian(b: Block): nat {
    if b == [] then 0 else b[0] as int + 0x100 * LittleEndian(b[1..])
  }

  lemma PtrIsLittleEndian(p: Block, c: nat)
    requires 4 * c + 4 <= |p|
    ensures Ptr(p, c) == LittleEndian(p[4 * c..4 * c + 4])
  {
    var q := p[4 * c..4 * c + 4];
    assert q == [p[4 * c], p[4 * c + 1], p[4 * c + 2], p[4 * c + 3]];
    assert LittleEndian(q[1..]) == q[1] as int + 0x100 * LittleEndian(q[1..][1..]);
    assert LittleEndian(q[1..][1..]) == q[2] as int + 0x100 * LittleEndian(q[1..][1..][1..]);
    assert LittleEndian(q[1..][1..][1..]) == q[3];
  }

  lemma PtrBytesSpell(v: nat)
    requires v < WORD
    ensures |PtrBytes(v)| == 4 && LittleEndian(PtrBytes(v)) == v
  {
    PtrRoundTrip(v);
    PtrIsLittleEndian(PtrBytes(v), 0);
    assert PtrBytes(v)[0..4] == PtrBytes(v);
  }

  lemma PtrRoundTrip(v: nat)
    requires v < WORD
    ensures Ptr(PtrBytes(v), 0) == v
  {
    var a, b := v / 0x100, v / 0x1_0000;
    assert v == 0x100 * a + v % 0x100 && a == 0x100 * b + a % 0x100 && b == 0x100 * (v / 0x100_0000) + b % 0x100;
  }

  lemma PtrsSet(p: Block, c: nat, v: nat)
    requires 4 * c + 4 <= |p| && v < WORD
    ensures |SetPtr(p, c, v)| == |p|
    ensures Ptrs(SetPtr(p, c, v)) == Ptrs(p)[c := v]
  {
    var q, w := SetPtr(p, c, v), PtrBytes(v);
    PtrRoundTrip(v);
    forall k | 0 <= k < |p| / 4 ensures Ptr(q, k) == if k == c then v else Ptr(p, k) {
      SplicedByte(p, c, w, 4 * k);
      SplicedByte(p, c, w, 4 * k + 1);
      SplicedByte(p, c, w, 4 * k + 2);
      SplicedByte(p, c, w, 4 * k + 3);
    }
  }

  lemma SplicedByte(p: Block, c: nat, w: Block, k: nat)
    requires 4 * c + 4 <= |p| && |w| == 4 && k < |p|
    ensures var q := p[..4 * c] + w + p[4 * c + 4..];
            |q| == |p| && q[k] == if 4 * c <= k < 4 * c + 4 then w[k - 4 * c] else p[k]
  {}

  lemma PtrsClear(p: Block, from: nat, count: nat)
    requires 4 * (from + count) <= |p|
    ensures |ClearPtrs(p, from, count)| == |p|
    ensures |Ptrs(ClearPtrs(p, from, count))| == |Ptrs(p)|
    ensures forall k :: 0 <= k < |Ptrs(p)| ==>
                          Ptrs(ClearPtrs(p, from, count))[k] == if from <= k < from + count then 0 else Ptrs(p)[k]
  {}

  /** Pages with the same pointers have the same bytes. */
  lemma SamePtrs(p: Block, q: Block)
    requires |p| == |q| && |p| % 4 == 0 && Ptrs(p) == Ptrs(q)
    ensures p == q
  {
    forall k | 0 <= k < |p| ensures p[k] == q[k] {
      var c := k / 4;
      assert Ptrs(p)[c] == Ptrs(q)[c];
      SamePtr(p, q, c);
      assert k == 4 * c || k == 4 * c + 1 || k == 4 * c + 2 || k == 4 * c + 3;
    }
  }

  lemma SamePtr(p: Block, q: Block, c: nat)
    requires 4 * c + 4 <= |p| && 4 * c + 4 <= |q| && Ptr(p, c) == Ptr(q, c)
    ensures p[4 * c] == q[4 * c] && p[4 * c + 1] == q[4 * c + 1]
    ensures p[4 * c + 2] == q[4 * c + 2] && p[4 * c + 3] == q[4 * c + 3]
  {}

  lemma PtrsZero(n: nat)
    ensures forall c :: 0 <= c < n / 4 ==> Ptrs(ZeroBytes(n))[c] == 0
  {}

  lemma ClearOne(p: Block, c: nat)
    requires 4 * c + 4 <= |p|
    ensures SetPtr(p, c, 0) == ClearPtrs(p, c, 1)
  {}
}
