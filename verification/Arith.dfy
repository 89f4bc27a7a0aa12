/** Powers, ceilings and mixed-radix digits: the arithmetic that the storage
    modules share. */
module Arith {

  function Pow(b: nat, e: nat): nat {
    if e == 0 then 1 else b * Pow(b, e - 1)
  }

  lemma {:induction false} PowPositive(b: nat, e: nat)
    requires b > 0
    ensures Pow(b, e) > 0
  {
    if e > 0 {
      PowPositive(b, e - 1);
    }
  }

  lemma MulAssoc(a: nat, b: nat, c: nat)
    ensures a * (b * c) == (a * b) * c
  {}

  lemma {:induction false} PowAdd(b: nat, m: nat, n: nat)
    ensures Pow(b, m + n) == Pow(b, m) * Pow(b, n)
  {
    if m > 0 {
      PowAdd(b, m - 1, n);
      MulAssoc(b, Pow(b, m - 1), Pow(b, n));
      assert Pow(b, m + n) == b * Pow(b, m - 1 + n);
    }
  }

  lemma {:induction false} PowPow(b: nat, m: nat, n: nat)
    ensures Pow(b, n * m) == Pow(Pow(b, m), n)
  {
    if n > 0 {
      assert n * m == m + (n - 1) * m;
      PowAdd(b, m, (n - 1) * m);
      PowPow(b, m, n - 1);
    }
  }

  function CeilDiv(n: nat, d: nat): nat
    requires d > 0
  {
    (n + d - 1) / d
  }

  lemma MulLess(a: int, b: int, d: nat)
    requires a < b
    ensures a * d + d <= b * d
  {
    assert (b - a - 1) * d >= 0;
  }

  lemma MulStep(a: nat, d: nat)
    ensures (a + 1) * d == a * d + d && d * (a + 1) == d * a + d
  {}

  lemma DivModUnique(x: int, q: int, r: int, d: nat)
    requires d > 0 && x == q * d + r && 0 <= r < d
    ensures x / d == q && x % d == r
  {
    var q', r' := x / d, x % d;
    assert x == q' * d + r';
    if q' < q { MulLess(q', q, d); }
    if q < q' { MulLess(q, q', d); }
  }

  lemma DivFacts(x: nat, d: nat)
    requires d > 0
    ensures x == x / d * d + x % d && 0 <= x % d < d && x / d >= 0
  {}

  lemma DivMonotone(a: nat, b: nat, d: nat)
    requires d > 0 && a <= b
    ensures a / d <= b / d
  {
    var p, q := a / d, b / d;
    if q < p { MulLess(q, p, d); }
  }

  /** The ceiling is the least number of d-sized pages that hold n items. */
  lemma CeilDivChar(n: nat, d: nat, c: nat)
    requires d > 0
    ensures CeilDiv(n, d) == c <==> (c * d >= n && n + d > c * d)
  {
    var q, r := (n + d - 1) / d, (n + d - 1) % d;
    assert n + d - 1 == q * d + r;
    if q < c { MulLess(q, c, d); }
    if c < q { MulLess(c, q, d); }
  }

  lemma CeilDivStep(n: nat, d: nat)
    requires d > 0
    ensures CeilDiv(n + 1, d) == n / d + 1
    ensures CeilDiv(n, d) == if n % d == 0 then n / d else n / d + 1
  {
    var q, r := n / d, n % d;
    assert n == q * d + r;
    assert (q + 1) * d == q * d + d;
    CeilDivChar(n + 1, d, q + 1);
    CeilDivChar(n, d, if r == 0 then q else q + 1);
  }

  lemma CeilMonotone(a: nat, b: nat, d: nat)
    requires d > 0 && a <= b
    ensures CeilDiv(a, d) <= CeilDiv(b, d)
  {
    DivMonotone(a + d - 1, b + d - 1, d);
  }

  lemma DivDiv(x: nat, a: nat, b: nat)
    requires a > 0 && b > 0
    ensures a * b > 0
    ensures x / (a * b) == (x / a) / b
    ensures (x % (a * b)) / a == (x / a) % b
    ensures (x % (a * b)) % a == x % a
  {
    var q, r := x / a, x % a;
    var q2, r2 := q / b, q % b;
    assert a * b > 0;
    MulLess(r2, b, a);
    assert x == (q2 * b + r2) * a + r;
    assert (q2 * b) * a == q2 * (a * b);
    assert x == q2 * (a * b) + (r2 * a + r);
    assert r2 * a + r < b * a == a * b;
    DivModUnique(x, q2, r2 * a + r, a * b);
    DivModUnique(r2 * a + r, r2, r, a);
  }

  lemma CeilCeil(n: nat, a: nat, b: nat)
    requires a > 0 && b > 0
    ensures a * b > 0
    ensures CeilDiv(CeilDiv(n, a), b) == CeilDiv(n, a * b)
  {
    if n > 0 {
      CeilDivStep(n - 1, a);
      DivDiv(n - 1, a, b);
      CeilDivStep(n - 1, a * b);
      CeilDivStep((n - 1) / a, b);
    } else {
      CeilDivChar(0, a, 0);
      CeilDivChar(0, b, 0);
      assert a * b > 0;
      CeilDivChar(0, a * b, 0);
    }
  }

  lemma CeilPow(n: nat, b: nat, j: nat)
    requires b > 0
    ensures Pow(b, j) > 0 && Pow(b, j + 1) > 0
    ensures CeilDiv(CeilDiv(n, Pow(b, j)), b) == CeilDiv(n, Pow(b, j + 1))
  {
    PowPositive(b, j);
    CeilCeil(n, Pow(b, j), b);
    assert Pow(b, j + 1) == Pow(b, j) * b;
  }

  /** The bitwise and. */
  function And(x: nat, y: nat): nat {
    if x == 0 then 0 else 2 * And(x / 2, y / 2) + (if x % 2 == 1 && y % 2 == 1 then 1 else 0)
  }

  predicate PowerOfTwo(c: nat) {
    if c <= 1 then c == 1 else c % 2 == 0 && PowerOfTwo(c / 2)
  }

  lemma {:induction false} MaskModulo(x: nat, c: nat)
    requires PowerOfTwo(c)
    ensures c > 0 && And(x, c - 1) == x % c
    decreases c
  {
    if c == 1 {
      AndZero(x);
    } else if x > 0 {
      MaskModulo(x / 2, c / 2);
      assert (c - 1) / 2 == c / 2 - 1 && (c - 1) % 2 == 1;
      HalfModulo(x, c / 2);
    } else {
      DivModUnique(0, 0, 0, c);
    }
  }

  lemma HalfModulo(x: nat, h: nat)
    requires h > 0
    ensures x % (2 * h) == 2 * (x / 2 % h) + x % 2
  {
    DivDiv(x, 2, h);
    DivFacts(x % (2 * h), 2);
  }

  lemma {:induction false} AndZero(x: nat)
    ensures And(x, 0) == 0
  {
    if x > 0 { AndZero(x / 2); }
  }

  lemma {:induction false} AndAtMost(x: nat, y: nat)
    ensures And(x, y) <= y
  {
    if x > 0 { AndAtMost(x / 2, y / 2); }
  }

  lemma {:induction false} AndSelf(x: nat)
    ensures And(x, x) == x
  {
    if x > 0 { AndSelf(x / 2); }
  }

  lemma {:induction false} MaskOfSelf(c: nat)
    requires c > 0 && And(c, c - 1) == 0
    ensures PowerOfTwo(c)
  {
    if c % 2 == 1 {
      assert (c - 1) / 2 == c / 2;
      AndSelf(c / 2);
    } else {
      assert (c - 1) / 2 == c / 2 - 1;
      MaskOfSelf(c / 2);
    }
  }

  ghost function Below(n: nat): (r: set<nat>)
    ensures forall x: nat :: x in r <==> x < n
    ensures |r| == n
  {
    if n == 0 then {} else Below(n - 1) + {n - 1}
  }

  lemma SubsetSize(a: set<nat>, b: set<nat>)
    requires a <= b
    ensures |a| <= |b|
  {
    assert b == a + (b - a);
  }
}
