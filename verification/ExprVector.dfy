/** NASM's expression vectors, src/bin/as/eval.c and src/bin/as/exprlib.c: a
    linear form over registers and segment bases, as terms in increasing order
    of type with coefficients modulo 2^64. */
module ExprVector {

  const LIMIT: nat := 0x1_0000_0000_0000_0000
  const EXPR_REG_START: nat := 1
  const EXPR_REG_END: nat := 164
  const EXPR_UNKNOWN: nat := EXPR_REG_END + 1
  const EXPR_SIMPLE: nat := EXPR_REG_END + 2
  const EXPR_WRT: nat := EXPR_REG_END + 3
  const EXPR_SEGBASE: nat := EXPR_REG_END + 4
  const SEG_ABS: nat := 0x4000_0000
  const FAR: nat := EXPR_SEGBASE + SEG_ABS

  /** A type is never 0: that marks the end of a vector. */
  datatype Term = Term(kind: nat, value: nat)

  type Vec = seq<Term>

  /** The values of registers and segment bases. */
  type Env = nat -> int

  // ----- arithmetic modulo 2^64 ---------------------------------------------------

  function Wrap(x: int): (r: nat)
    ensures r < LIMIT
  {
    x % LIMIT
  }

  lemma WrapShift(x: int, k: int)
    ensures Wrap(x + k * LIMIT) == Wrap(x)
  {}

  lemma WrapAdd(a: int, b: int)
    ensures Wrap(Wrap(a) + b) == Wrap(a + b)
  {
    WrapShift(Wrap(a) + b, a / LIMIT);
  }

  lemma WrapMul(a: int, b: int)
    ensures Wrap(Wrap(a) * b) == Wrap(a * b)
  {
    var q, r := a / LIMIT, a % LIMIT;
    assert a == q * LIMIT + r;
    assert a * b == r * b + (q * b) * LIMIT by { assert (q * LIMIT) * b == (q * b) * LIMIT; }
    WrapShift(r * b, q * b);
  }

  lemma WrapSum(a: int, a': int, b: int, b': int)
    requires Wrap(a) == Wrap(a') && Wrap(b) == Wrap(b')
    ensures Wrap(a + b) == Wrap(a' + b')
  {
    hide Wrap;
    WrapAdd(a, b);
    WrapAdd(a', b);
    WrapAdd(b, a');
    WrapAdd(b', a');
    assert b + a' == a' + b && b' + a' == a' + b';
  }

  lemma WrapProduct(a: int, a': int, b: int, b': int)
    requires Wrap(a) == Wrap(a') && Wrap(b) == Wrap(b')
    ensures Wrap(a * b) == Wrap(a' * b')
  {
    hide Wrap;
    WrapMul(a, b);
    WrapMul(a', b);
    WrapMul(b, a');
    WrapMul(b', a');
    assert b * a' == a' * b && b' * a' == a' * b';
  }

  lemma WrapNegate(b: int, b': int)
    requires Wrap(b) == Wrap(b')
    ensures Wrap(-b) == Wrap(-b')
  {
    var k := b / LIMIT - b' / LIMIT;
    assert -b' == -b + k * LIMIT;
    WrapShift(-b, k);
  }

  // ----- meaning ------------------------------------------------------------------

  function Weight(kind: nat, env: Env): int {
    if kind == EXPR_SIMPLE then 1 else env(kind)
  }

  function Eval(v: Vec, env: Env): int {
    if v == [] then 0 else v[0].value * Weight(v[0].kind, env) + Eval(v[1..], env)
  }

  predicate Sorted(v: Vec) {
    && (forall i :: 0 <= i < |v| ==> v[i].kind > 0 && v[i].value < LIMIT)
    && (forall i, j :: 0 <= i < j < |v| ==> v[i].kind < v[j].kind)
  }

  /** No forward reference, no WRT and no far-absolute segment. */
  predicate Plain(v: Vec) {
    forall i :: 0 <= i < |v| ==> v[i].kind != EXPR_UNKNOWN && v[i].kind != EXPR_WRT && v[i].kind < FAR
  }

  /** A well-formed vector of the modelled kind. */
  predicate Good(v: Vec) {
    Sorted(v) && Plain(v)
  }

  lemma {:induction false} EvalAppend(a: Vec, b: Vec, env: Env)
    ensures Eval(a + b, env) == Eval(a, env) + Eval(b, env)
  {
    if a == [] {
      assert a + b == b;
    } else {
      assert (a + b)[1..] == a[1..] + b;
      EvalAppend(a[1..], b, env);
    }
  }

  lemma EvalOne(t: Term, env: Env)
    ensures Eval([t], env) == t.value * Weight(t.kind, env)
  {
    assert [t][1..] == [];
  }

  // ----- sums ---------------------------------------------------------------------

  /** The sum of two terms of one type; a sum of 0 leaves no term. */
  function Sum(p: Term, q: Term): Vec {
    var sum := Wrap(p.value + q.value);
    if sum != 0 then [Term(p.kind, sum)] else []
  }

  /** The sum of two plain vectors. */
  function Merge(p: Vec, q: Vec): Vec
    decreases |p| + |q|
  {
    if p == [] then q else if q == [] then p else
    if p[0].kind > q[0].kind then [q[0]] + Merge(p, q[1..]) else
    if p[0].kind < q[0].kind then [p[0]] + Merge(p[1..], q) else
    Sum(p[0], q[0]) + Merge(p[1..], q[1..])
  }

  predicate Above(v: Vec, k: nat) {
    forall i :: 0 <= i < |v| ==> v[i].kind > k
  }

  lemma {:induction false} MergeAbove(p: Vec, q: Vec, k: nat)
    requires Above(p, k) && Above(q, k)
    ensures Above(Merge(p, q), k)
    decreases |p| + |q|
  {
    if p == [] || q == [] {
    } else if p[0].kind > q[0].kind {
      MergeAbove(p, q[1..], k);
    } else if p[0].kind < q[0].kind {
      MergeAbove(p[1..], q, k);
    } else {
      MergeAbove(p[1..], q[1..], k);
    }
  }

  lemma SortedTail(v: Vec)
    requires Good(v) && v != []
    ensures Good(v[1..]) && Above(v[1..], v[0].kind)
  {}

  lemma SortedCons(t: Term, v: Vec)
    requires Good(v) && Above(v, t.kind) && t.kind > 0 && t.value < LIMIT
    requires t.kind != EXPR_UNKNOWN && t.kind != EXPR_WRT && t.kind < FAR
    ensures Good([t] + v)
  {}

  lemma {:induction false} MergeGood(p: Vec, q: Vec)
    requires Good(p) && Good(q)
    ensures Good(Merge(p, q))
    decreases |p| + |q|
  {
    hide Good, Above;
    if p != [] && q != [] {
      SortedTail(p);
      SortedTail(q);
      HeadOk(p);
      HeadOk(q);
      if p[0].kind > q[0].kind {
        MergeGood(p, q[1..]);
        AboveAll(p, q[0].kind);
        MergeAbove(p, q[1..], q[0].kind);
        SortedCons(q[0], Merge(p, q[1..]));
      } else if p[0].kind < q[0].kind {
        MergeGood(p[1..], q);
        AboveAll(q, p[0].kind);
        MergeAbove(p[1..], q, p[0].kind);
        SortedCons(p[0], Merge(p[1..], q));
      } else {
        MergeGood(p[1..], q[1..]);
        MergeAbove(p[1..], q[1..], p[0].kind);
        var sum := Wrap(p[0].value + q[0].value);
        SortedCons(Term(p[0].kind, sum), Merge(p[1..], q[1..]));
        assert [] + Merge(p[1..], q[1..]) == Merge(p[1..], q[1..]);
      }
    }
  }

  ghost predicate NoZeros(v: Vec) {
    forall i :: 0 <= i < |v| ==> v[i].value != 0
  }

  /** What cancels out is gone. */
  lemma {:induction false} MergeNoZeros(p: Vec, q: Vec)
    requires NoZeros(p) && NoZeros(q)
    ensures NoZeros(Merge(p, q))
    decreases |p| + |q|
  {
    hide Wrap;
    if p == [] || q == [] {
    } else if p[0].kind > q[0].kind {
      MergeNoZeros(p, q[1..]);
    } else if p[0].kind < q[0].kind {
      MergeNoZeros(p[1..], q);
    } else {
      MergeNoZeros(p[1..], q[1..]);
    }
  }

  lemma HeadOk(v: Vec)
    requires Good(v) && v != []
    ensures v[0].kind > 0 && v[0].value < LIMIT && v[0].kind != EXPR_UNKNOWN && v[0].kind != EXPR_WRT && v[0].kind < FAR
  {}

  lemma AboveAll(v: Vec, k: nat)
    requires Good(v) && v != [] && v[0].kind > k
    ensures Above(v, k)
  {}

  /** Adding vectors adds what they stand for. */
  lemma {:induction false} MergeMeaning(p: Vec, q: Vec, env: Env)
    ensures Wrap(Eval(Merge(p, q), env)) == Wrap(Eval(p, env) + Eval(q, env))
    decreases |p| + |q|
  {
    hide Weight, Wrap;
    if p == [] || q == [] {
    } else if p[0].kind > q[0].kind {
      MergeMeaning(p, q[1..], env);
      EvalAppend([q[0]], Merge(p, q[1..]), env);
      EvalOne(q[0], env);
      var w := q[0].value * Weight(q[0].kind, env);
      WrapSum(w, w, Eval(Merge(p, q[1..]), env), Eval(p, env) + Eval(q[1..], env));
    } else if p[0].kind < q[0].kind {
      MergeMeaning(p[1..], q, env);
      EvalAppend([p[0]], Merge(p[1..], q), env);
      EvalOne(p[0], env);
      var w := p[0].value * Weight(p[0].kind, env);
      WrapSum(w, w, Eval(Merge(p[1..], q), env), Eval(p[1..], env) + Eval(q, env));
    } else {
      MergeSame(p, q, env);
    }
  }

  lemma SumMeaning(t: Term, u: Term, env: Env)
    requires t.kind == u.kind
    ensures Wrap(Eval(Sum(t, u), env)) ==
            Wrap(t.value * Weight(t.kind, env) + u.value * Weight(u.kind, env))
  {
    hide Weight, Wrap;
    var w := Weight(t.kind, env);
    var x, y := t.value, u.value;
    EvalOne(Term(t.kind, Wrap(x + y)), env);
    assert Eval(Sum(t, u), env) == Wrap(x + y) * w;
    WrapMul(x + y, w);
    assert (x + y) * w == x * w + y * w;
  }

  lemma {:induction false} MergeSame(p: Vec, q: Vec, env: Env)
    requires p != [] && q != [] && p[0].kind == q[0].kind
    ensures Wrap(Eval(Merge(p, q), env)) == Wrap(Eval(p, env) + Eval(q, env))
    decreases |p| + |q|, 0
  {
    hide Weight, Wrap, Sum;
    var rest := Merge(p[1..], q[1..]);
    var x, y := p[0].value * Weight(p[0].kind, env), q[0].value * Weight(q[0].kind, env);
    MergeMeaning(p[1..], q[1..], env);
    SumMeaning(p[0], q[0], env);
    EvalAppend(Sum(p[0], q[0]), rest, env);
    WrapSum(Eval(Sum(p[0], q[0]), env), x + y, Eval(rest, env), Eval(p[1..], env) + Eval(q[1..], env));
  }

  // ----- scaling --------------------------------------------------------------------

  /** Every coefficient times k; a factor of 0 leaves terms of value 0. */
  function Scale(v: Vec, k: int): (r: Vec)
    ensures |r| == |v| && forall i :: 0 <= i < |v| ==> r[i] == Term(v[i].kind, Wrap(k * v[i].value))
  {
    seq(|v|, i requires 0 <= i < |v| => Term(v[i].kind, Wrap(k * v[i].value)))
  }

  lemma ScaleGood(v: Vec, k: int)
    requires Good(v)
    ensures Good(Scale(v, k))
  {
    hide Wrap, Scale;
  }

  lemma {:induction false} ScaleMeaning(v: Vec, k: int, env: Env)
    ensures Wrap(Eval(Scale(v, k), env)) == Wrap(k * Eval(v, env))
  {
    hide Weight, Wrap;
    if v == [] {
    } else {
      ScaleMeaning(v[1..], k, env);
      assert Scale(v, k)[1..] == Scale(v[1..], k);
      var x, w := v[0].value, Weight(v[0].kind, env);
      WrapMul(k * x, w);
      WrapSum(Wrap(k * x) * w, (k * x) * w, Eval(Scale(v[1..], k), env), k * Eval(v[1..], env));
      DistributeLines(k, x, w, Eval(v[1..], env));
    }
  }

  lemma DistributeLines(k: int, x: int, w: int, e: int)
    ensures (k * x) * w + k * e == k * (x * w + e)
  {}

  // ----- what exprlib.c decides -------------------------------------------------------

  /** The first term from i on with a value other than 0. */
  method SkipZeros(v: Vec, i: nat) returns (j: nat)
    requires i <= |v|
    ensures i <= j <= |v| && (forall k :: i <= k < j ==> v[k].value == 0)
    ensures j < |v| ==> v[j].value != 0
  {
    j := i;
    while j < |v| && v[j].value == 0
      invariant i <= j <= |v| && forall k :: i <= k < j ==> v[k].value == 0
    {
      j := j + 1;
    }
  }

  /** Nothing but a number: every other term has value 0. */
  predicate Scalar(v: Vec) {
    forall i :: 0 <= i < |v| && v[i].kind != EXPR_SIMPLE ==> v[i].value == 0
  }

  /** A number other than 0 and besides it only far-absolute terms. */
  predicate NumberAndFar(v: Vec) {
    && (exists i :: 0 <= i < |v| && v[i].kind == EXPR_SIMPLE && v[i].value != 0)
    && (forall i :: 0 <= i < |v| && v[i].kind != EXPR_SIMPLE && v[i].kind < FAR ==> v[i].value == 0)
  }

  /** is_simple: a far-absolute term may follow a number, though not a 0. */
  method IsSimple(v: Vec) returns (b: bool)
    requires Sorted(v)
    ensures b <==> Scalar(v) || NumberAndFar(v)
    ensures Plain(v) ==> (b <==> Scalar(v))
  {
    var i := SkipZeros(v, 0);
    if i == |v| { return true; }
    if v[i].kind != EXPR_SIMPLE { return false; }
    i := SkipZeros(v, i + 1);
    if i < |v| && v[i].kind < FAR { return false; }
    return true;
  }

  /** is_really_simple. */
  method IsReallySimple(v: Vec) returns (b: bool)
    requires Sorted(v)
    ensures b <==> Scalar(v)
  {
    var i := SkipZeros(v, 0);
    if i == |v| { return true; }
    if v[i].kind != EXPR_SIMPLE { return false; }
    i := SkipZeros(v, i + 1);
    return i == |v|;
  }

  /** The coefficient of the term of the given type. */
  function Coefficient(v: Vec, kind: nat): nat {
    if v == [] then 0 else if v[0].kind == kind then v[0].value else Coefficient(v[1..], kind)
  }

  /** No register and no forward reference. */
  predicate NoRegister(v: Vec) {
    forall i :: 0 <= i < |v| && v[i].kind < EXPR_SIMPLE ==> v[i].value == 0
  }

  /** reloc_value returns the number in a vector without registers, else 0. */
  method RelocValue(v: Vec) returns (x: nat)
    requires Sorted(v)
    ensures x == if NoRegister(v) then Coefficient(v, EXPR_SIMPLE) else 0
  {
    var i := SkipZeros(v, 0);
    if i == |v| {
      CoefficientZero(v, EXPR_SIMPLE);
      return 0;
    }
    if v[i].kind == EXPR_SIMPLE {
      CoefficientAt(v, i);
      return v[i].value;
    }
    if v[i].kind > EXPR_SIMPLE { CoefficientZero(v, EXPR_SIMPLE); }
    return 0;
  }

  lemma {:induction false} CoefficientZero(v: Vec, kind: nat)
    requires forall i :: 0 <= i < |v| && v[i].kind == kind ==> v[i].value == 0
    ensures Coefficient(v, kind) == 0
  {
    if v != [] { CoefficientZero(v[1..], kind); }
  }

  lemma {:induction false} CoefficientAt(v: Vec, i: nat)
    requires Sorted(v) && i < |v|
    ensures Coefficient(v, v[i].kind) == v[i].value
  {
    if i > 0 { CoefficientAt(v[1..], i - 1); }
  }

  /** is_reloc: a number, at most one segment base with factor 1, possibly a WRT. */
  method IsReloc(v: Vec) returns (b: bool)
    requires Sorted(v)
    ensures b <==> Relocatable(v)
  {
    hide Wrap;
    var i := SkipZeros(v, 0);
    if i == |v| { return true; }
    if v[i].kind < EXPR_SIMPLE { return false; }
    if v[i].kind == EXPR_SIMPLE {
      i := SkipZeros(v, i + 1);
      if i == |v| { return true; }
    }
    if v[i].kind == EXPR_WRT {
      i := SkipZeros(v, i + 1);
      if i == |v| { return true; }
    }
    if v[i].value != 0 && v[i].value != 1 { return false; }
    var j := SkipZeros(v, i + 1);
    return j == |v|;
  }

  /** Besides the number and a WRT only zeros, or one segment base with factor 1. */
  predicate Relocatable(v: Vec) {
    && NoRegister(v)
    && (forall i :: 0 <= i < |v| && v[i].kind > EXPR_WRT ==> v[i].value <= 1)
    && (forall i, j :: 0 <= i < j < |v| && v[i].kind > EXPR_WRT && v[i].value != 0 ==> v[j].value == 0)
  }

  /** A scalar vector stands for one number under every assignment. */
  lemma {:induction false} ScalarMeaning(v: Vec, env: Env)
    requires Sorted(v) && Scalar(v)
    ensures Eval(v, env) == Coefficient(v, EXPR_SIMPLE) < LIMIT
  {
    if v != [] {
      ScalarMeaning(v[1..], env);
      if v[0].kind == EXPR_SIMPLE {
        forall i | 0 <= i < |v[1..]| ensures v[1..][i].kind != EXPR_SIMPLE { assert v[1..][i] == v[i + 1]; }
        CoefficientZero(v[1..], EXPR_SIMPLE);
      }
    }
  }

  function Indicator(kind: nat): Env {
    k => if k == kind then 1 else 0
  }

  function Nowhere(): Env {
    k => 0
  }

  /** Raising one register from 0 to 1 shows its coefficient. */
  lemma {:induction false} EvalIndicator(v: Vec, kind: nat)
    requires Sorted(v) && kind != EXPR_SIMPLE
    ensures Eval(v, Indicator(kind)) == Eval(v, Nowhere()) + Coefficient(v, kind)
  {
    if v != [] {
      EvalIndicator(v[1..], kind);
      if v[0].kind == kind {
        forall i | 0 <= i < |v[1..]| ensures v[1..][i].kind != kind { assert v[1..][i] == v[i + 1]; }
        CoefficientZero(v[1..], kind);
      }
    }
  }

  ghost predicate Constant(v: Vec) {
    forall e: Env, f: Env :: Wrap(Eval(v, e)) == Wrap(Eval(v, f))
  }

  /** is_really_simple decides whether the form is constant. */
  lemma ScalarIffConstant(v: Vec)
    requires Sorted(v)
    ensures Scalar(v) <==> Constant(v)
  {
    if Scalar(v) {
      forall e: Env, f: Env ensures Wrap(Eval(v, e)) == Wrap(Eval(v, f)) {
        ScalarMeaning(v, e);
        ScalarMeaning(v, f);
      }
    } else {
      var i :| 0 <= i < |v| && v[i].kind != EXPR_SIMPLE && v[i].value != 0;
      CoefficientAt(v, i);
      EvalIndicator(v, v[i].kind);
      assert Wrap(Eval(v, Indicator(v[i].kind))) != Wrap(Eval(v, Nowhere()));
    }
  }

  /** reloc_seg: the segment whose base a relocatable vector adds, or NO_SEG. */
  method RelocSeg(v: Vec) returns (seg: int)
    requires Sorted(v)
    ensures Relocatable(v) && (forall i :: 0 <= i < |v| && v[i].kind > EXPR_WRT ==> v[i].value == 0) ==> seg == -1
    ensures Relocatable(v) ==>
      forall i :: 0 <= i < |v| && v[i].kind > EXPR_WRT && v[i].value != 0 ==> seg == v[i].kind - EXPR_SEGBASE
  {
    var i := SkipWrtOrZeros(v, 0);
    if i < |v| && v[i].kind == EXPR_SIMPLE {
      i := SkipWrtOrZeros(v, i + 1);
    }
    return if i == |v| then -1 else v[i].kind - EXPR_SEGBASE;
  }

  method SkipWrtOrZeros(v: Vec, i: nat) returns (j: nat)
    requires i <= |v|
    ensures i <= j <= |v| && (forall k :: i <= k < j ==> v[k].kind == EXPR_WRT || v[k].value == 0)
    ensures j < |v| ==> v[j].kind != EXPR_WRT && v[j].value != 0
  {
    j := i;
    while j < |v| && (v[j].kind == EXPR_WRT || v[j].value == 0)
      invariant i <= j <= |v| && forall k :: i <= k < j ==> v[k].kind == EXPR_WRT || v[k].value == 0
    {
      j := j + 1;
    }
  }

  // ----- add_vectors and scalar_mult ---------------------------------------------------

  /** The terms in front of a far-absolute segment. */
  function Near(v: Vec): (r: Vec)
    ensures |r| <= |v| && r == v[..|r|]
  {
    if v == [] || v[0].kind >= FAR then [] else [v[0]] + Near(v[1..])
  }

  /** The rest. */
  function Far(v: Vec): Vec {
    v[|Near(v)|..]
  }

  /** No forward reference. */
  predicate Known(v: Vec) {
    forall i :: 0 <= i < |v| ==> v[i].kind != EXPR_UNKNOWN
  }

  lemma NearStep(v: Vec, i: nat)
    requires i < |v| && v[i].kind < FAR
    ensures Near(v[i..]) == [v[i]] + Near(v[i + 1..]) && Far(v[i..]) == Far(v[i + 1..])
  {
    assert v[i..][1..] == v[i + 1..];
  }

  lemma {:induction false} NearPlain(v: Vec)
    requires Plain(v)
    ensures Near(v) == v
  {
    if v != [] { NearPlain(v[1..]); }
  }

  lemma NearFar(v: Vec)
    ensures v == Near(v) + Far(v)
  {}

  /** One step of the merge, with the terms so far in front. */
  lemma MergeStep(r: Vec, p: Vec, q: Vec, i: nat, j: nat)
    requires i < |p| && j < |q| && p[i].kind < FAR && q[j].kind < FAR
    ensures r + Merge(Near(p[i..]), Near(q[j..])) ==
      if p[i].kind > q[j].kind then (r + [q[j]]) + Merge(Near(p[i..]), Near(q[j + 1..]))
      else if p[i].kind < q[j].kind then (r + [p[i]]) + Merge(Near(p[i + 1..]), Near(q[j..]))
      else (r + Sum(p[i], q[j])) + Merge(Near(p[i + 1..]), Near(q[j + 1..]))
  {
    hide Wrap, Near, Far;
    NearStep(p, i);
    NearStep(q, j);
    var a, b := Near(p[i..]), Near(q[j..]);
    assert a[1..] == Near(p[i + 1..]) && b[1..] == Near(q[j + 1..]);
  }

  /** The terms up to type k. */
  function UpTo(v: Vec, k: nat): Vec {
    if v == [] || v[0].kind > k then [] else [v[0]] + UpTo(v[1..], k)
  }

  lemma {:induction false} UpToSplit(a: Vec, b: Vec, k: nat)
    requires (forall i :: 0 <= i < |a| ==> a[i].kind <= k) && Above(b, k)
    ensures UpTo(a + b, k) == a
  {
    if a == [] {
      assert a + b == b;
    } else {
      assert (a + b)[1..] == a[1..] + b;
      UpToSplit(a[1..], b, k);
    }
  }

  predicate Reaches(v: Vec, k: nat) {
    exists i :: 0 <= i < |v| && k <= v[i].kind < FAR
  }

  /** The sum meets a forward reference on one side while the other has terms from
      there on: then it stops at that reference. */
  predicate CutShort(p: Vec, q: Vec) {
    (!Known(p) || !Known(q)) && Reaches(p, EXPR_UNKNOWN) && Reaches(q, EXPR_UNKNOWN)
  }

  /** Half-way through the merge: r holds the merged terms of p[..i] and q[..j], all
      below what is to come, and no forward reference was met. */
  ghost predicate Merging(r: Vec, p: Vec, q: Vec, i: nat, j: nat) {
    && i <= |p| && j <= |q|
    && r + Merge(Near(p[i..]), Near(q[j..])) == Merge(Near(p), Near(q))
    && Far(p[i..]) == Far(p) && Far(q[j..]) == Far(q)
    && (forall k :: 0 <= k < |r| ==> (i < |p| ==> r[k].kind < p[i].kind) && (j < |q| ==> r[k].kind < q[j].kind))
    && (forall k :: 0 <= k < i ==> p[k].kind != EXPR_UNKNOWN && (j < |q| ==> p[k].kind < q[j].kind))
    && (forall k :: 0 <= k < j ==> q[k].kind != EXPR_UNKNOWN && (i < |p| ==> q[k].kind < p[i].kind))
  }

  lemma MergingStart(p: Vec, q: Vec)
    ensures Merging([], p, q, 0, 0)
  {
    hide Merge, Near, Far;
    assert p[0..] == p && q[0..] == q;
    assert [] + Merge(Near(p), Near(q)) == Merge(Near(p), Near(q));
  }

  /** The terms that one step takes: from p, from q, or one from each. */
  function Step(p: Vec, q: Vec, i: nat, j: nat): (Vec, nat, nat)
    requires i < |p| && j < |q|
  {
    if p[i].kind > q[j].kind then ([q[j]], i, j + 1) else
    if p[i].kind < q[j].kind then ([p[i]], i + 1, j) else (Sum(p[i], q[j]), i + 1, j + 1)
  }

  function Lower(p: Vec, q: Vec, i: nat, j: nat): nat
    requires i < |p| && j < |q|
  {
    if p[i].kind > q[j].kind then q[j].kind else p[i].kind
  }

  lemma StepMerges(r: Vec, p: Vec, q: Vec, i: nat, j: nat)
    requires Merging(r, p, q, i, j) && i < |p| && j < |q| && p[i].kind < FAR && q[j].kind < FAR
    ensures var (t, i', j') := Step(p, q, i, j);
            && (r + t) + Merge(Near(p[i'..]), Near(q[j'..])) == Merge(Near(p), Near(q))
            && Far(p[i'..]) == Far(p) && Far(q[j'..]) == Far(q)
  {
    hide Merging, Sum, Merge, Near, Far;
    MergingFacts(r, p, q, i, j);
    MergeStep(r, p, q, i, j);
    NearStep(p, i);
    NearStep(q, j);
  }

  lemma StepKinds(p: Vec, q: Vec, i: nat, j: nat)
    requires i < |p| && j < |q|
    ensures forall k :: 0 <= k < |Step(p, q, i, j).0| ==> Step(p, q, i, j).0[k].kind == Lower(p, q, i, j)
  {
    hide Wrap;
  }

  /** One step of the loop. */
  lemma MergingStep(r: Vec, p: Vec, q: Vec, i: nat, j: nat)
    requires Sorted(p) && Sorted(q) && Merging(r, p, q, i, j)
    requires i < |p| && j < |q| && p[i].kind < FAR && q[j].kind < FAR && Lower(p, q, i, j) != EXPR_UNKNOWN
    ensures var (t, i', j') := Step(p, q, i, j); Merging(r + t, p, q, i', j')
  {
    hide Merge, Near, Far, Sum;
    StepMerges(r, p, q, i, j);
    StepKinds(p, q, i, j);
  }

  /** The step that meets a forward reference and ends the loop. */
  lemma MergingCut(r: Vec, p: Vec, q: Vec, i: nat, j: nat)
    requires Sorted(p) && Sorted(q) && Merging(r, p, q, i, j)
    requires i < |p| && j < |q| && p[i].kind < FAR && q[j].kind < FAR && Lower(p, q, i, j) == EXPR_UNKNOWN
    ensures var (t, _, _) := Step(p, q, i, j); CutShort(p, q) && r + t == UpTo(Merge(Near(p), Near(q)), EXPR_UNKNOWN)
  {
    hide Merge, Near, Far, UpTo, Sum;
    StepMerges(r, p, q, i, j);
    StepKinds(p, q, i, j);
    var (t, i', j') := Step(p, q, i, j);
    NearAbove(p, i', EXPR_UNKNOWN);
    NearAbove(q, j', EXPR_UNKNOWN);
    MergeAbove(Near(p[i'..]), Near(q[j'..]), EXPR_UNKNOWN);
    UpToSplit(r + t, Merge(Near(p[i'..]), Near(q[j'..])), EXPR_UNKNOWN);
  }

  lemma NearAbove(v: Vec, i: nat, k: nat)
    requires i <= |v| && forall x :: i <= x < |v| ==> v[x].kind > k
    ensures Above(Near(v[i..]), k)
  {}

  /** A sum that runs to the end was not cut short. */
  lemma MergingEnd(r: Vec, p: Vec, q: Vec, i: nat, j: nat)
    requires Sorted(p) && Sorted(q) && Merging(r, p, q, i, j)
    requires i == |p| || j == |q| || p[i].kind >= FAR || q[j].kind >= FAR
    ensures !CutShort(p, q)
  {
    hide Merge, Near, Far;
  }

  /** add_vectors: the near terms are merged; far-absolute terms stay exactly if one
      side is a number. A sum that is cut short keeps the terms up to the forward
      reference. */
  method AddVectors(p: Vec, q: Vec) returns (r: Vec)
    requires Sorted(p) && Sorted(q)
    ensures Plain(p) && Plain(q) ==> r == Merge(p, q)
    ensures CutShort(p, q) ==> r == UpTo(Merge(Near(p), Near(q)), EXPR_UNKNOWN)
    ensures !CutShort(p, q) && !Scalar(p) && !Scalar(q) ==> r == Merge(Near(p), Near(q))
    ensures !CutShort(p, q) && (Scalar(p) || Scalar(q)) ==> Sums(r, p, q)
  {
    hide Wrap, Merge, Plain, Sorted, Scalar, Sum, Near, Far, Known, CutShort, UpTo, Merging;
    var simple := IsReallySimple(p);
    var preserve := simple;
    if !simple { preserve := IsReallySimple(q); }
    r := [];
    var i, j := 0, 0;
    MergingStart(p, q);
    while i < |p| && j < |q| && p[i].kind < FAR && q[j].kind < FAR
      invariant i <= |p| && j <= |q| && Merging(r, p, q, i, j)
      decreases |p| - i + |q| - j
    {
      if Lower(p, q, i, j) == EXPR_UNKNOWN { MergingCut(r, p, q, i, j); } else { MergingStep(r, p, q, i, j); }
      var last;
      if p[i].kind > q[j].kind {
        r := r + [q[j]];
        last := q[j].kind;
        j := j + 1;
      } else if p[i].kind < q[j].kind {
        r := r + [p[i]];
        last := p[i].kind;
        i := i + 1;
      } else {
        r := r + Sum(p[i], q[j]);
        last := p[i].kind;
        i, j := i + 1, j + 1;
      }
      if last == EXPR_UNKNOWN {
        PlainWhole(p, q);
        return;
      }
    }
    MergingEnd(r, p, q, i, j);
    MergingFacts(r, p, q, i, j);
    MergeEnd(r, p, q, i, j);
    ghost var merged := r;
    r := CopyTerms(r, p, i, preserve);
    r := CopyTerms(r, q, j, preserve);
    AddedAll(merged, p, q, i, j);
    AddedPlain(merged, p, q, i, j);
  }

  lemma PlainWhole(p: Vec, q: Vec)
    ensures Plain(p) && Plain(q) ==> !CutShort(p, q)
  {}

  lemma MergingFacts(r: Vec, p: Vec, q: Vec, i: nat, j: nat)
    requires Merging(r, p, q, i, j)
    ensures i <= |p| && j <= |q| && r + Merge(Near(p[i..]), Near(q[j..])) == Merge(Near(p), Near(q))
    ensures Far(p[i..]) == Far(p) && Far(q[j..]) == Far(q)
  {}

  method CopyTerms(r0: Vec, p: Vec, i0: nat, preserve: bool) returns (r: Vec)
    requires i0 <= |p|
    ensures r == r0 + if preserve then p[i0..] else Near(p[i0..])
  {
    r := r0;
    var i := i0;
    while i < |p| && (preserve || p[i].kind < FAR)
      invariant i0 <= i <= |p| && r == r0 + p[i0..i]
      invariant !preserve ==> forall j :: i0 <= j < i ==> p[j].kind < FAR
    {
      r := r + [p[i]];
      i := i + 1;
    }
    assert p[i0..][..i - i0] == p[i0..i];
    if !preserve { NearIs(p[i0..], i - i0); }
  }

  /** r stands for what p and q stand for together. */
  ghost predicate Sums(r: Vec, p: Vec, q: Vec) {
    forall env: Env :: Wrap(Eval(r, env)) == Wrap(Eval(p, env) + Eval(q, env))
  }

  lemma MergeEnd(r: Vec, p: Vec, q: Vec, i: nat, j: nat)
    requires i <= |p| && j <= |q| && (i == |p| || j == |q| || p[i].kind >= FAR || q[j].kind >= FAR)
    ensures r + Merge(Near(p[i..]), Near(q[j..])) == r + Near(p[i..]) + Near(q[j..])
  {
    hide Wrap;
  }

  lemma AddedPlain(r: Vec, p: Vec, q: Vec, i: nat, j: nat)
    requires i <= |p| && j <= |q|
    ensures Plain(p) && Plain(q) ==>
              && Near(p) == p && Near(q) == q
              && Near(p[i..]) == p[i..] && Near(q[j..]) == q[j..]
  {
    if Plain(p) && Plain(q) {
      NearPlain(p);
      NearPlain(q);
      NearPlain(p[i..]);
      NearPlain(q[j..]);
    }
  }

  /** The far parts add to the merged near parts. */
  lemma AddedAll(r: Vec, p: Vec, q: Vec, i: nat, j: nat)
    requires i <= |p| && j <= |q| && Far(p[i..]) == Far(p) && Far(q[j..]) == Far(q)
    ensures r + Near(p[i..]) + Near(q[j..]) == Merge(Near(p), Near(q)) ==> Sums(r + p[i..] + q[j..], p, q)
  {
    hide Wrap, Near, Far;
    if r + Near(p[i..]) + Near(q[j..]) == Merge(Near(p), Near(q)) {
      forall env: Env
        ensures Wrap(Eval(r + p[i..] + q[j..], env)) == Wrap(Eval(p, env) + Eval(q, env))
      {
        AddedMeaning(r, p, q, i, j, env);
      }
    }
  }

  lemma AddedMeaning(r: Vec, p: Vec, q: Vec, i: nat, j: nat, env: Env)
    requires i <= |p| && j <= |q| && Far(p[i..]) == Far(p) && Far(q[j..]) == Far(q)
    requires r + Near(p[i..]) + Near(q[j..]) == Merge(Near(p), Near(q))
    ensures Wrap(Eval(r + p[i..] + q[j..], env)) == Wrap(Eval(p, env) + Eval(q, env))
  {
    hide Wrap, Near, Far, Eval, Merge;
    EvalParts(p, env);
    EvalParts(q, env);
    EvalParts(p[i..], env);
    EvalParts(q[j..], env);
    EvalAppend(r + p[i..], q[j..], env);
    EvalAppend(r, p[i..], env);
    EvalAppend(r + Near(p[i..]), Near(q[j..]), env);
    EvalAppend(r, Near(p[i..]), env);
    MergeMeaning(Near(p), Near(q), env);
    var far := Eval(Far(p), env) + Eval(Far(q), env);
    WrapSum(Eval(Merge(Near(p), Near(q)), env), Eval(Near(p), env) + Eval(Near(q), env), far, far);
  }

  lemma EvalParts(v: Vec, env: Env)
    ensures Eval(v, env) == Eval(Near(v), env) + Eval(Far(v), env)
  {
    hide Near, Far;
    NearFar(v);
    EvalAppend(Near(v), Far(v), env);
  }

  /** scalar_mult, which also cuts off a far-absolute segment part. */
  method ScalarMult(v: Vec, k: int) returns (r: Vec)
    ensures r == Scale(Near(v), k)
    ensures Plain(v) ==> r == Scale(v, k)
  {
    r := v;
    var i := 0;
    while i < |r| && r[i].kind < FAR
      invariant i <= |r| == |v| && forall j :: 0 <= j < i ==> v[j].kind < FAR
      invariant forall j :: 0 <= j < |v| ==> r[j] == if j < i then Term(v[j].kind, Wrap(k * v[j].value)) else v[j]
    {
      r := r[i := r[i].(value := Wrap(k * r[i].value))];
      i := i + 1;
    }
    r := r[..i];
    NearIs(v, i);
    if Plain(v) { NearPlain(v); }
  }

  lemma {:induction false} NearIs(v: Vec, n: nat)
    requires n <= |v| && (forall i :: 0 <= i < n ==> v[i].kind < FAR) && (n < |v| ==> v[n].kind >= FAR)
    ensures Near(v) == v[..n]
  {
    if n > 0 { NearIs(v[1..], n - 1); }
  }
}
