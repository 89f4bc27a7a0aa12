/** The portable bitmap search (utils/dfs/bitops.c) on 32-bit words. */
module Bitmap {

  /** A machine word, least significant bit first, with C's operators on it. */
  type Word = w: seq<bool> | |w| == 32 witness seq(32, i => false)

  const ONES: Word := seq(32, i => true)

  function Or(a: Word, b: Word): Word {
    seq(32, i requires 0 <= i < 32 => a[i] || b[i])
  }

  function ShiftRight(w: Word, n: nat): Word {
    seq(32, i requires 0 <= i < 32 => i + n < 32 && w[i + n])
  }

  function ShiftLeft(w: Word, n: nat): Word {
    seq(32, i requires 0 <= i < 32 => i >= n && w[i - n])
  }

  /** The bits of a bitmap in order. */
  function Bits(words: seq<Word>): (bits: seq<bool>)
    ensures |bits| == 32 * |words|
    ensures forall i :: 0 <= i < |bits| ==> bits[i] == words[i / 32][i % 32]
  {
    seq(32 * |words|, i requires 0 <= i < 32 * |words| => words[i / 32][i % 32])
  }

  /** Bit-by-bit scan: the first clear position in [start, len), or len. */
  function Scan(bits: seq<bool>, len: nat, start: nat): (r: nat)
    requires len <= |bits|
    ensures start <= len ==> start <= r <= len
    ensures start >= len ==> r == len
    ensures start <= r < len ==> !bits[r]
    ensures forall i :: start <= i < r && i < len ==> bits[i]
    decreases len - start
  {
    if start >= len then len else if !bits[start] then start else Scan(bits, len, start + 1)
  }

  /** What the word-wise search returns: the scan's answer, except that a full
      range ending inside a word yields the first position of that word. */
  function FindZero(bits: seq<bool>, len: nat, start: nat): nat
    requires len <= |bits|
  {
    if start < len && Scan(bits, len, start) == len then len - len % 32 else Scan(bits, len, start)
  }

  /** Exactly when the word-wise search agrees with the scan. */
  lemma FindZeroIsScan(bits: seq<bool>, len: nat, start: nat)
    requires len <= |bits|
    ensures FindZero(bits, len, start) == Scan(bits, len, start) <==>
            (start >= len || len % 32 == 0 || exists i :: start <= i < len && !bits[i])
  {
    var r := Scan(bits, len, start);
    if start <= r < len {
      assert !bits[r];
    }
  }

  /** Where they disagree the search names a position that is in use. */
  lemma FindZeroPartialWord()
    ensures var bits := Bits([ONES]); Scan(bits, 20, 3) == 20 && FindZero(bits, 20, 3) == 0 && bits[0]
  {
    ScanOver(Bits([ONES]), 20, 3, 20);
  }

  lemma {:induction false} ScanOver(bits: seq<bool>, len: nat, a: nat, b: nat)
    requires a <= b <= len <= |bits| && forall i :: a <= i < b ==> bits[i]
    ensures Scan(bits, len, a) == Scan(bits, len, b)
    decreases b - a
  {
    if a < b { ScanOver(bits, len, a + 1, b); }
  }

  lemma ScanAt(bits: seq<bool>, len: nat, a: nat, b: nat)
    requires a <= b < len <= |bits| && (forall i :: a <= i < b ==> bits[i]) && !bits[b]
    ensures Scan(bits, len, a) == b
  {
    ScanOver(bits, len, a, b);
  }

  lemma BitsOfWord(words: seq<Word>, k: nat, i: nat)
    requires k < |words| && i < 32
    ensures Bits(words)[32 * k + i] == words[k][i]
  {}

  /** ffz: the lowest clear bit of a word, and 0 for a word without one. */
  method FirstZero(w: Word) returns (r: nat)
    ensures r < 32
    ensures w != ONES ==> !w[r] && forall i :: 0 <= i < r ==> w[i]
    ensures w == ONES ==> r == 0
  {
    r := 0;
    while r < 32
      invariant 0 <= r <= 32
      invariant forall i :: 0 <= i < r ==> w[i]
    {
      if !w[r] { return; }
      r := r + 1;
    }
    assert w == ONES;
    r := 0;
  }

  /** find_next_zero_bit: word by word, with the ends of the range masked. */
  method FindNextZeroBit(words: seq<Word>, len: nat, start: nat) returns (r: nat)
    requires len <= 32 * |words|
    ensures r == FindZero(Bits(words), len, start)
  {
    hide Scan, Bits;
    if start >= len {
      return len;
    }
    ghost var bits := Bits(words);
    var k := start / 32;
    var result := 32 * k;
    var left, first := len - result, start % 32;
    if first > 0 {
      var w := Or(words[k], ShiftRight(ONES, 32 - first));
      if left < 32 {
        r := InWord(words, len, start, k, Or(w, ShiftLeft(ONES, left)));
        return;
      }
      if w != ONES {
        r := InWord(words, len, start, k, w);
        return;
      }
      SkipWord(words, len, start, start, k, w);
      k, left, result := k + 1, left - 32, result + 32;
    }
    while left >= 32
      invariant 0 <= left && left == len - result && result == 32 * k && start <= result
      invariant forall i :: start <= i < result ==> bits[i]
    {
      if words[k] != ONES {
        r := InWord(words, len, start, k, words[k]);
        return;
      }
      SkipWord(words, len, start, result, k, words[k]);
      k, left, result := k + 1, left - 32, result + 32;
    }
    if left == 0 {
      ScanOver(bits, len, start, len);
      return result;
    }
    r := InWord(words, len, start, k, Or(words[k], ShiftLeft(ONES, left)));
  }

  /** A word all of whose bits from `from` on are set is passed over. */
  lemma SkipWord(words: seq<Word>, len: nat, start: nat, from: nat, k: nat, w: Word)
    requires k < |words| && 32 * k <= from < 32 * k + 32 && start <= from && w == ONES
    requires forall i :: 0 <= i < 32 ==> w[i] == (words[k][i] || 32 * k + i < from)
    requires forall i :: start <= i < from ==> i < |Bits(words)| && Bits(words)[i]
    ensures forall i :: start <= i < 32 * k + 32 ==> Bits(words)[i]
  {
    forall i | from <= i < 32 * k + 32 ensures Bits(words)[i] {
      assert w[i - 32 * k];
      BitsOfWord(words, k, i - 32 * k);
    }
  }

  /** The search ends in word k: w is that word with the positions outside
      [start, len) set, and everything before it in the range is set. */
  method InWord(words: seq<Word>, len: nat, start: nat, k: nat, w: Word) returns (r: nat)
    requires start < len <= 32 * |words| && 32 * k < len && start < 32 * k + 32
    requires MaskedWord(words, len, start, k, w)
    requires forall i :: start <= i < 32 * k ==> Bits(words)[i]
    requires w == ONES ==> len < 32 * k + 32
    ensures r == FindZero(Bits(words), len, start)
  {
    hide Bits, Scan, FindZero, MaskedWord;
    r := FirstZero(w);
    if w != ONES {
      WordFound(words, len, start, k, w, r);
    } else {
      WordFull(words, len, start, k, w);
    }
    r := 32 * k + r;
  }

  /** w is word k with the positions outside [start, len) set. */
  ghost predicate MaskedWord(words: seq<Word>, len: nat, start: nat, k: nat, w: Word) {
    && k < |words|
    && forall i :: 0 <= i < 32 ==> w[i] == (words[k][i] || 32 * k + i < start || 32 * k + i >= len)
  }

  lemma SetBehind(words: seq<Word>, len: nat, start: nat, k: nat, w: Word, i: nat)
    requires MaskedWord(words, len, start, k, w) && 32 * k <= i < 32 * k + 32 && start <= i < len && w[i - 32 * k]
    ensures i < |Bits(words)| && Bits(words)[i]
  {
    hide Bits;
    BitsOfWord(words, k, i - 32 * k);
  }

  lemma WordFound(words: seq<Word>, len: nat, start: nat, k: nat, w: Word, r: nat)
    requires start < len <= 32 * |words| && 32 * k < len && start < 32 * k + 32 && MaskedWord(words, len, start, k, w)
    requires forall i :: start <= i < 32 * k ==> Bits(words)[i]
    requires r < 32 && !w[r] && forall i :: 0 <= i < r ==> w[i]
    ensures 32 * k + r == FindZero(Bits(words), len, start)
  {
    hide Bits, Scan;
    var bits := Bits(words);
    BitsOfWord(words, k, r);
    forall i | start <= i < 32 * k + r ensures bits[i] {
      if i >= 32 * k { SetBehind(words, len, start, k, w, i); }
    }
    ScanAt(bits, len, start, 32 * k + r);
  }

  lemma WordFull(words: seq<Word>, len: nat, start: nat, k: nat, w: Word)
    requires start < len <= 32 * |words| && 32 * k < len < 32 * k + 32 && MaskedWord(words, len, start, k, w)
    requires forall i :: start <= i < 32 * k ==> Bits(words)[i]
    requires w == ONES
    ensures 32 * k == FindZero(Bits(words), len, start)
  {
    hide Bits, Scan;
    var bits := Bits(words);
    forall i | start <= i < len ensures bits[i] {
      if i >= 32 * k { SetBehind(words, len, start, k, w, i); }
    }
    ScanOver(bits, len, start, len);
    ScanEnd(bits, len);
  }

  lemma ScanEnd(bits: seq<bool>, len: nat)
    requires len <= |bits|
    ensures Scan(bits, len, len) == len
  {}
}
