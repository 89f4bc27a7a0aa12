/** Small notions that the models share. */
module Basics {

  datatype Option<+T> = None | Some(value: T)

  function Elements(s: seq<nat>): set<nat> {
    set b | b in s
  }

  /** Division as C does it, toward zero. */
  function TruncDiv(a: int, b: int): int
    requires b != 0
  {
    var q := (if a < 0 then -a else a) / (if b < 0 then -b else b);
    if (a < 0) == (b < 0) then q else -q
  }

  function Abs(a: int): nat {
    if a < 0 then -a else a
  }

  /** The quotient whose remainder is smaller than the divisor and has the sign of
      the dividend. */
  lemma TruncDivMeans(a: int, b: int)
    requires b != 0
    ensures var r := a - TruncDiv(a, b) * b; Abs(r) < Abs(b) && (r == 0 || (r < 0 <==> a < 0))
  {
    var m, n := Abs(a), Abs(b);
    assert m == m / n * n + m % n;
    if (a < 0) == (b < 0) {
      assert TruncDiv(a, b) * b == if b < 0 then -(m / n * n) else m / n * n;
    } else {
      assert TruncDiv(a, b) * b == if b < 0 then -(m / n) * b else -(m / n * n);
    }
  }

  lemma Associate<T>(a: seq<T>, b: seq<T>, c: seq<T>)
    ensures (a + b) + c == a + (b + c) && [] + c == c && b + [] == b
  {}
}
