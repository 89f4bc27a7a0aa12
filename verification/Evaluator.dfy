/** NASM's expression evaluator, src/bin/as/eval.c: the recursive descent over
    sums, products and primaries, which computes vectors while it parses. */
module Evaluator {

  import opened Basics
  import opened ExprVector

  type Register = r: nat | EXPR_REG_START <= r <= EXPR_REG_END witness EXPR_REG_START

  /** Multiplying operators: * / % and the signed // and %%. */
  datatype Op = Mul | Div | Mod | SDiv | SMod

  datatype Token =
    | TNum(n: int) | TReg(r: Register) | TId(name: string) | THere | TBase
    | TPlus | TMinus | TOp(op: Op) | TTilde | TBang | TOpen | TClose | TEos

  datatype Expr =
    | Num(n: int) | Reg(r: Register) | Symbol(name: string) | Here | Base
    | Neg(e: Expr) | Compl(e: Expr) | Not(e: Expr)
    | Sum(minus: bool, a: Expr, b: Expr)
    | Product(op: Op, a: Expr, b: Expr)

  /** A label's segment (-1 for NO_SEG) and offset. */
  datatype Label = Label(seg: int, ofs: int)

  /** What labels, $ and $$ stand for, in a pass that needs every symbol. */
  datatype Context = Context(labels: map<string, Label>, here: Label)

  predicate LabelOk(l: Label) {
    -1 <= l.seg < SEG_ABS
  }

  /** No far-absolute segments. */
  ghost predicate ContextOk(c: Context) {
    LabelOk(c.here) && forall name :: name in c.labels ==> LabelOk(c.labels[name])
  }

  // ----- what an expression means ------------------------------------------------------

  function Signed(x: nat): int
    requires x < LIMIT
  {
    if x < LIMIT / 2 then x else x - LIMIT
  }

  /** What the dividing operators compute. */
  function Apply(op: Op, x: nat, y: nat): int
    requires !op.Mul? && x < LIMIT && 0 < y < LIMIT
  {
    match op
    case Div => x / y
    case Mod => x % y
    case SDiv => TruncDiv(Signed(x), Signed(y))
    case SMod => Signed(x) - TruncDiv(Signed(x), Signed(y)) * Signed(y)
  }

  /** The number in 64 bits with the same residue and a sign. */
  lemma SignedMeans(x: nat)
    requires x < LIMIT
    ensures -(LIMIT / 2) <= Signed(x) < LIMIT / 2 && Wrap(Signed(x)) == x
  {
    WrapShift(x, -1);
  }

  /** / and % are the quotient and the remainder of unsigned division. */
  lemma Divides(x: nat, y: nat)
    requires x < LIMIT && 0 < y < LIMIT
    ensures x == Apply(Div, x, y) * y + Apply(Mod, x, y) && 0 <= Apply(Mod, x, y) < y
  {}

  /** // and %% are those of signed division toward zero: the remainder has the sign
      of the dividend. */
  lemma DividesSigned(x: nat, y: nat)
    requires x < LIMIT && 0 < y < LIMIT
    ensures var a, b, q, r := Signed(x), Signed(y), Apply(SDiv, x, y), Apply(SMod, x, y);
            && a == q * b + r && Abs(r) < Abs(b) && (r == 0 || (r < 0 <==> a < 0))
  {
    var a, b := Signed(x), Signed(y);
    TruncDivMeans(a, b);
  }

  function LabelValue(l: Label, env: Env): int {
    if l.seg >= 0 then l.ofs + env(EXPR_SEGBASE + l.seg) else l.ofs
  }

  /** The value under an assignment to registers and segment bases; only its
      residue modulo 2^64 counts. */
  function Meaning(e: Expr, c: Context, env: Env): int {
    match e
    case Num(n) => n
    case Reg(r) => env(r)
    case Symbol(s) => if s in c.labels then LabelValue(c.labels[s], env) else 0
    case Here => LabelValue(c.here, env)
    case Base => LabelValue(c.here.(ofs := 0), env)
    case Neg(x) => -Meaning(x, c, env)
    case Compl(x) => -Meaning(x, c, env) - 1
    case Not(x) => if Wrap(Meaning(x, c, env)) == 0 then 1 else 0
    case Sum(minus, a, b) =>
      if minus then Meaning(a, c, env) - Meaning(b, c, env) else Meaning(a, c, env) + Meaning(b, c, env)
    case Product(op, a, b) =>
      if op.Mul? then Meaning(a, c, env) * Meaning(b, c, env) else
      var y := Wrap(Meaning(b, c, env));
      if y == 0 then 0 else Apply(op, Wrap(Meaning(a, c, env)), y)
  }

  // ----- the vector the evaluator builds -----------------------------------------------

  function ScalarVect(x: int): Vec {
    [Term(EXPR_SIMPLE, Wrap(x))]
  }

  function LabelVect(l: Label): Vec {
    ScalarVect(l.ofs) + (if l.seg >= 0 then [Term(EXPR_SEGBASE + l.seg, 1)] else [])
  }

  function Number(v: Vec): nat {
    Coefficient(v, EXPR_SIMPLE)
  }

  function Add(minus: bool, v: Vec, w: Vec): (r: Vec)
    requires Good(v) && Good(w)
    ensures Good(r)
  {
    ScaleGood(w, -1);
    var w' := if minus then Scale(w, -1) else w;
    MergeGood(v, w');
    Merge(v, w')
  }

  function Multiply(op: Op, v: Vec, w: Vec): Option<Vec>
    requires Good(v) && Good(w)
  {
    if op.Mul? then
      if Scalar(v) then Some(Scale(w, Number(v))) else
      if Scalar(w) then Some(Scale(v, Number(w))) else None
    else if !Scalar(v) || !Scalar(w) || Number(w) == 0 then None else
      NumberBound(v);
      NumberBound(w);
      Some(ScalarVect(Apply(op, Number(v), Number(w))))
  }

  lemma NumberBound(v: Vec)
    requires Good(v) && Scalar(v)
    ensures Number(v) < LIMIT
  {
    ScalarMeaning(v, Nowhere());
  }

  /** The vector of an expression; None where the evaluator reports an error. */
  function Value(e: Expr, c: Context): (r: Option<Vec>)
    requires ContextOk(c)
    ensures r.Some? ==> Good(r.value)
  {
    match e
    case Num(n) => Some(ScalarVect(n))
    case Reg(r) => Some([Term(r, 1)])
    case Symbol(s) => if s in c.labels then Some(LabelVect(c.labels[s])) else None
    case Here => Some(LabelVect(c.here))
    case Base => Some(LabelVect(c.here.(ofs := 0)))
    case Neg(x) =>
      (match Value(x, c)
       case None => None
       case Some(v) => ScaleGood(v, -1); Some(Scale(v, -1)))
    case Compl(x) =>
      (match Value(x, c)
       case None => None
       case Some(v) => if Scalar(v) then Some(ScalarVect(-1 - Number(v) as int)) else None)
    case Not(x) =>
      (match Value(x, c)
       case None => None
       case Some(v) => if Scalar(v) then Some(ScalarVect(if Number(v) == 0 then 1 else 0)) else None)
    case Sum(minus, a, b) => SumOf(minus, Value(a, c), Value(b, c))
    case Product(op, a, b) => ProductOf(op, Value(a, c), Value(b, c))
  }

  function SumOf(minus: bool, a: Option<Vec>, b: Option<Vec>): (r: Option<Vec>)
    requires (a.Some? ==> Good(a.value)) && (b.Some? ==> Good(b.value))
    ensures r.Some? ==> Good(r.value)
  {
    match (a, b)
    case (Some(v), Some(w)) => Some(Add(minus, v, w))
    case _ => None
  }

  function ProductOf(op: Op, a: Option<Vec>, b: Option<Vec>): (r: Option<Vec>)
    requires (a.Some? ==> Good(a.value)) && (b.Some? ==> Good(b.value))
    ensures r.Some? ==> Good(r.value)
  {
    match (a, b)
    case (Some(v), Some(w)) =>
      MultiplyGood(op, v, w);
      Multiply(op, v, w)
    case _ => None
  }

  lemma MultiplyGood(op: Op, v: Vec, w: Vec)
    requires Good(v) && Good(w)
    ensures Multiply(op, v, w).Some? ==> Good(Multiply(op, v, w).value)
  {
    if op.Mul? {
      ScaleGood(w, Number(v));
      ScaleGood(v, Number(w));
    }
  }

  // ----- the vector means the expression ---------------------------------------------

  lemma ScalarVectMeaning(x: int, env: Env)
    ensures Wrap(Eval(ScalarVect(x), env)) == Wrap(x)
  {
    EvalOne(Term(EXPR_SIMPLE, Wrap(x)), env);
    WrapAdd(x, 0);
  }

  lemma LabelMeaning(l: Label, env: Env)
    requires LabelOk(l)
    ensures Wrap(Eval(LabelVect(l), env)) == Wrap(LabelValue(l, env))
  {
    hide Wrap;
    ScalarVectMeaning(l.ofs, env);
    if l.seg >= 0 {
      var t := Term(EXPR_SEGBASE + l.seg, 1);
      EvalOne(t, env);
      EvalAppend(ScalarVect(l.ofs), [t], env);
      WrapSum(Eval(ScalarVect(l.ofs), env), l.ofs, Eval([t], env), env(EXPR_SEGBASE + l.seg));
    } else {
      assert LabelVect(l) == ScalarVect(l.ofs);
    }
  }

  /** A scalar's number is the residue of what it stands for. */
  lemma NumberMeaning(v: Vec, x: int, env: Env)
    requires Good(v) && Scalar(v) && Wrap(Eval(v, env)) == Wrap(x)
    ensures Number(v) == Wrap(x)
  {
    ScalarMeaning(v, env);
  }

  lemma MultiplyMeaning(op: Op, v: Vec, w: Vec, x: int, y: int, env: Env)
    requires Good(v) && Good(w) && Multiply(op, v, w).Some?
    requires Wrap(Eval(v, env)) == Wrap(x) && Wrap(Eval(w, env)) == Wrap(y)
    ensures op.Mul? ==> Wrap(Eval(Multiply(op, v, w).value, env)) == Wrap(x * y)
    ensures !op.Mul? ==> Wrap(y) != 0 &&
                         Wrap(Eval(Multiply(op, v, w).value, env)) == Wrap(Apply(op, Wrap(x), Wrap(y)))
  {
    hide Wrap, Good, Scalar, Apply;
    if Scalar(v) { NumberMeaning(v, x, env); WrapAdd(x, 0); }
    if Scalar(w) { NumberMeaning(w, y, env); WrapAdd(y, 0); }
    if op.Mul? {
      if Scalar(v) {
        ScaleMeaning(w, Number(v), env);
        WrapProduct(Number(v), x, Eval(w, env), y);
      } else {
        ScaleMeaning(v, Number(w), env);
        WrapProduct(Number(w), y, Eval(v, env), x);
        assert y * x == x * y;
      }
    } else {
      ScalarVectMeaning(Apply(op, Number(v), Number(w)), env);
    }
  }

  lemma DifferenceMeaning(v: Vec, w: Vec, x: int, y: int, env: Env)
    requires Wrap(Eval(v, env)) == Wrap(x) && Wrap(Eval(w, env)) == Wrap(y)
    ensures Wrap(Eval(Merge(v, Scale(w, -1)), env)) == Wrap(x - y)
    ensures Wrap(Eval(Merge(v, w), env)) == Wrap(x + y)
    ensures Wrap(Eval(Scale(w, -1), env)) == Wrap(-y)
  {
    hide Wrap, Merge, Scale, Eval;
    ScaleMeaning(w, -1, env);
    WrapNegate(Eval(w, env), y);
    assert -1 * Eval(w, env) == -Eval(w, env);
    MergeMeaning(v, Scale(w, -1), env);
    WrapSum(Eval(v, env), x, Eval(Scale(w, -1), env), -y);
    MergeMeaning(v, w, env);
    WrapSum(Eval(v, env), x, Eval(w, env), y);
  }

  /** Whatever the registers and segment bases hold, the vector has the value of
      the expression, modulo 2^64. */
  lemma {:induction false} ValueMeaning(e: Expr, c: Context, env: Env)
    requires ContextOk(c) && Value(e, c).Some?
    ensures Wrap(Eval(Value(e, c).value, env)) == Wrap(Meaning(e, c, env))
  {
    hide Wrap, Good, Merge, Scale, Multiply, Apply, Eval, Scalar, LabelVect;
    match e {
      case Num(n) => ScalarVectMeaning(n, env);
      case Reg(r) => EvalOne(Term(r, 1), env);
      case Symbol(s) => LabelMeaning(c.labels[s], env);
      case Here => LabelMeaning(c.here, env);
      case Base => LabelMeaning(c.here.(ofs := 0), env);
      case Neg(x) =>
        ValueMeaning(x, c, env);
        DifferenceMeaning([], Value(x, c).value, Eval([], env), Meaning(x, c, env), env);
      case Compl(x) =>
        ValueMeaning(x, c, env);
        NumberMeaning(Value(x, c).value, Meaning(x, c, env), env);
        ComplLines(Meaning(x, c, env));
        ScalarVectMeaning(-1 - Number(Value(x, c).value) as int, env);
      case Not(x) =>
        ValueMeaning(x, c, env);
        NumberMeaning(Value(x, c).value, Meaning(x, c, env), env);
        ScalarVectMeaning(if Number(Value(x, c).value) == 0 then 1 else 0, env);
      case Sum(minus, a, b) =>
        ValueMeaning(a, c, env);
        ValueMeaning(b, c, env);
        DifferenceMeaning(Value(a, c).value, Value(b, c).value, Meaning(a, c, env), Meaning(b, c, env), env);
      case Product(op, a, b) =>
        ValueMeaning(a, c, env);
        ValueMeaning(b, c, env);
        MultiplyMeaning(op, Value(a, c).value, Value(b, c).value, Meaning(a, c, env), Meaning(b, c, env), env);
    }
  }

  // ----- which expressions have a value ----------------------------------------------

  /** The same whatever the registers and segment bases hold. */
  ghost predicate Fixed(e: Expr, c: Context) {
    forall env: Env, env': Env :: Wrap(Meaning(e, c, env)) == Wrap(Meaning(e, c, env'))
  }

  /** Every symbol is known; ~ and ! are applied to fixed numbers, one factor of a
      product is fixed, and fixed numbers are divided by fixed numbers other than 0. */
  ghost predicate Defined(e: Expr, c: Context) {
    match e
    case Symbol(s) => s in c.labels
    case Neg(x) => Defined(x, c)
    case Compl(x) => Defined(x, c) && Fixed(x, c)
    case Not(x) => Defined(x, c) && Fixed(x, c)
    case Sum(_, a, b) => Defined(a, c) && Defined(b, c)
    case Product(op, a, b) =>
      && Defined(a, c) && Defined(b, c)
      && (if op.Mul? then Fixed(a, c) || Fixed(b, c)
          else Fixed(a, c) && Fixed(b, c) && Wrap(Meaning(b, c, Nowhere())) != 0)
    case _ => true
  }

  lemma ScalarIsFixed(e: Expr, c: Context)
    requires ContextOk(c) && Value(e, c).Some?
    ensures Scalar(Value(e, c).value) <==> Fixed(e, c)
  {
    hide Value, Good, Scalar, Wrap, Meaning, Eval;
    var v := Value(e, c).value;
    GoodParts(v);
    ScalarIffConstant(v);
    forall env: Env ensures Wrap(Eval(v, env)) == Wrap(Meaning(e, c, env)) {
      ValueMeaning(e, c, env);
    }
  }

  /** An expression is refused exactly if it has no value of this kind. */
  lemma {:induction false} ValueDefined(e: Expr, c: Context)
    requires ContextOk(c)
    ensures Value(e, c).Some? <==> Defined(e, c)
  {
    hide Good, Scalar, Wrap, Fixed, Meaning, LabelVect, ScalarVect, Scale, Merge, Apply, ContextOk;
    match e {
      case Neg(x) => ValueDefined(x, c);
      case Compl(x) => ValueDefined(x, c); if Value(x, c).Some? { ScalarIsFixed(x, c); }
      case Not(x) => ValueDefined(x, c); if Value(x, c).Some? { ScalarIsFixed(x, c); }
      case Sum(_, a, b) => ValueDefined(a, c); ValueDefined(b, c);
      case Product(_, a, b) =>
        ValueDefined(a, c);
        ValueDefined(b, c);
        if Value(a, c).Some? && Value(b, c).Some? {
          ScalarIsFixed(a, c);
          ScalarIsFixed(b, c);
          ValueMeaning(b, c, Nowhere());
          if Scalar(Value(b, c).value) { NumberMeaning(Value(b, c).value, Meaning(b, c, Nowhere()), Nowhere()); }
        }
      case _ =>
    }
  }

  lemma ComplLines(x: int)
    ensures Wrap(-1 - Wrap(x) as int) == Wrap(-x - 1)
  {
    WrapShift(-x - 1, x / LIMIT);
  }

  // ----- the grammar --------------------------------------------------------------------

  type Parsed = Option<(Expr, seq<Token>)>

  predicate AddingNext(ts: seq<Token>) {
    ts != [] && (ts[0].TPlus? || ts[0].TMinus?)
  }

  predicate MultiplyingNext(ts: seq<Token>) {
    ts != [] && ts[0].TOp?
  }

  /** A primary: unary operators, parentheses, numbers, registers and labels. */
  function Parse6(ts: seq<Token>): (r: Parsed)
    ensures r.Some? ==> |r.value.1| < |ts|
    decreases |ts|, 0
  {
    if ts == [] then None else
    var rest := ts[1..];
    match ts[0]
    case TMinus => Unary(x => Neg(x), Parse6(rest))
    case TPlus => Parse6(rest)
    case TTilde => Unary(x => Compl(x), Parse6(rest))
    case TBang => Unary(x => Not(x), Parse6(rest))
    case TOpen =>
      (match Parse4(rest)
       case None => None
       case Some(p) => if p.1 != [] && p.1[0].TClose? then Some((p.0, p.1[1..])) else None)
    case TNum(n) => Some((Num(n), rest))
    case TReg(r) => Some((Reg(r), rest))
    case TId(name) => Some((Symbol(name), rest))
    case THere => Some((Here, rest))
    case TBase => Some((Base, rest))
    case TOp(_) => None
    case TClose => None
    case TEos => None
  }

  function Unary(f: Expr -> Expr, p: Parsed): (r: Parsed)
    ensures r.Some? <==> p.Some?
    ensures r.Some? ==> r.value == (f(p.value.0), p.value.1)
  {
    match p
    case None => None
    case Some(q) => Some((f(q.0), q.1))
  }

  /** Products group to the left. */
  function Parse5(ts: seq<Token>): (r: Parsed)
    ensures r.Some? ==> |r.value.1| < |ts|
    decreases |ts|, 2
  {
    match Parse6(ts)
    case None => None
    case Some(p) => Loop5(p.0, p.1)
  }

  function Loop5(e: Expr, ts: seq<Token>): (r: Parsed)
    ensures r.Some? ==> |r.value.1| <= |ts|
    decreases |ts|, 1
  {
    if !MultiplyingNext(ts) then Some((e, ts)) else
    match Parse6(ts[1..])
    case None => None
    case Some(p) => Loop5(Product(ts[0].op, e, p.0), p.1)
  }

  /** Sums group to the left, and products bind tighter. */
  function Parse4(ts: seq<Token>): (r: Parsed)
    ensures r.Some? ==> |r.value.1| < |ts|
    decreases |ts|, 4
  {
    match Parse5(ts)
    case None => None
    case Some(p) => Loop4(p.0, p.1)
  }

  function Loop4(e: Expr, ts: seq<Token>): (r: Parsed)
    ensures r.Some? ==> |r.value.1| <= |ts|
    decreases |ts|, 3
  {
    if !AddingNext(ts) then Some((e, ts)) else
    match Parse5(ts[1..])
    case None => None
    case Some(p) => Loop4(Sum(ts[0].TMinus?, e, p.0), p.1)
  }

  // ----- what the grammar generates ---------------------------------------------------------

  /** expr6: a unary operator and an expr6, a parenthesis, or a single token. */
  ghost predicate Is6(ts: seq<Token>, e: Expr)
    decreases |ts|, 0
  {
    ts != [] &&
    match ts[0]
    case TMinus => e.Neg? && Is6(ts[1..], e.e)
    case TPlus => Is6(ts[1..], e)
    case TTilde => e.Compl? && Is6(ts[1..], e.e)
    case TBang => e.Not? && Is6(ts[1..], e.e)
    case TOpen => |ts| >= 2 && ts[|ts| - 1].TClose? && Is4(ts[1..|ts| - 1], e)
    case TNum(n) => ts == [TNum(n)] && e == Num(n)
    case TReg(r) => ts == [TReg(r)] && e == Reg(r)
    case TId(name) => ts == [TId(name)] && e == Symbol(name)
    case THere => ts == [THere] && e == Here
    case TBase => ts == [TBase] && e == Base
    case _ => false
  }

  /** expr5: an expr6, or an expr5, a multiplying operator and an expr6. */
  ghost predicate Is5(ts: seq<Token>, e: Expr)
    decreases |ts|, 1
  {
    Is6(ts, e) || (e.Product? && exists k :: SplitAt(ts, k, TOp(e.op)) && Is5(ts[..k], e.a) && Is6(ts[k + 1..], e.b))
  }

  /** expr4: an expr5, or an expr4, a plus or minus and an expr5. */
  ghost predicate Is4(ts: seq<Token>, e: Expr)
    decreases |ts|, 2
  {
    Is5(ts, e) || (e.Sum? && exists k :: SplitAt(ts, k, Sign(e.minus)) && Is4(ts[..k], e.a) && Is5(ts[k + 1..], e.b))
  }

  ghost predicate SplitAt(ts: seq<Token>, k: int, t: Token) {
    0 <= k < |ts| && ts[k] == t
  }

  function Sign(minus: bool): Token {
    if minus then TMinus else TPlus
  }

  lemma Joined(a: seq<Token>, t: Token, b: seq<Token>)
    ensures var ts := a + [t] + b; SplitAt(ts, |a|, t) && ts[..|a|] == a && ts[|a| + 1..] == b
  {}

  lemma Tail(t: Token, ts: seq<Token>)
    ensures ([t] + ts)[1..] == ts && ([t] + ts)[0] == t
  {}

  lemma Front(ts: seq<Token>, rest: seq<Token>)
    requires ts != []
    ensures (ts + rest)[0] == ts[0] && (ts + rest)[1..] == ts[1..] + rest
  {}

  /** What the grammar generates is read, whatever follows it. */
  lemma {:induction false} Reads6(ts: seq<Token>, e: Expr, rest: seq<Token>)
    requires Is6(ts, e)
    ensures Parse6(ts + rest) == Some((e, rest))
    decreases |ts|, 0
  {
    hide Parse4, Is4;
    Front(ts, rest);
    assert |ts| == 1 ==> ts[1..] + rest == rest;
    match ts[0] {
      case TMinus => Reads6(ts[1..], e.e, rest);
      case TPlus => Reads6(ts[1..], e, rest);
      case TTilde => Reads6(ts[1..], e.e, rest);
      case TBang => Reads6(ts[1..], e.e, rest);
      case TOpen =>
        var inner := ts[1..|ts| - 1];
        Reads4(inner, e, [TClose] + rest);
        assert ts[1..] == inner + [TClose];
        Associate(inner, [TClose], rest);
        Tail(TClose, rest);
      case _ =>
    }
  }

  lemma {:induction false} Reads5(ts: seq<Token>, e: Expr, rest: seq<Token>)
    requires Is5(ts, e)
    ensures Parse5(ts + rest) == Loop5(e, rest)
    decreases |ts|, 1
  {
    hide Parse6, Is6;
    if Is6(ts, e) {
      Reads6(ts, e, rest);
    } else {
      var k :| SplitAt(ts, k, TOp(e.op)) && Is5(ts[..k], e.a) && Is6(ts[k + 1..], e.b);
      var more := [TOp(e.op)] + (ts[k + 1..] + rest);
      Reads5(ts[..k], e.a, more);
      Reads6(ts[k + 1..], e.b, rest);
      Tail(TOp(e.op), ts[k + 1..] + rest);
      assert ts + rest == ts[..k] + more;
    }
  }

  lemma {:induction false} Reads4(ts: seq<Token>, e: Expr, rest: seq<Token>)
    requires Is4(ts, e) && !MultiplyingNext(rest)
    ensures Parse4(ts + rest) == Loop4(e, rest)
    decreases |ts|, 2
  {
    hide Parse5, Is5;
    if Is5(ts, e) {
      Reads5(ts, e, rest);
    } else {
      var k :| SplitAt(ts, k, Sign(e.minus)) && Is4(ts[..k], e.a) && Is5(ts[k + 1..], e.b);
      var more := [Sign(e.minus)] + (ts[k + 1..] + rest);
      Reads4(ts[..k], e.a, more);
      Reads5(ts[k + 1..], e.b, rest);
      Tail(Sign(e.minus), ts[k + 1..] + rest);
      assert ts + rest == ts[..k] + more;
    }
  }

  /** The tokens a parse used up. */
  ghost function Used(ts: seq<Token>, rest: seq<Token>): seq<Token> {
    if |rest| <= |ts| then ts[..|ts| - |rest|] else []
  }

  /** A parse leaves the end of its text. */
  ghost predicate Leaves(ts: seq<Token>, p: Parsed) {
    p.Some? ==> ts == Used(ts, p.value.1) + p.value.1
  }

  lemma UsedMore(t: Token, ts: seq<Token>, rest: seq<Token>)
    requires |rest| <= |ts| && ts == Used(ts, rest) + rest
    ensures Used([t] + ts, rest) == [t] + Used(ts, rest) && [t] + ts == Used([t] + ts, rest) + rest
  {}

  /** Only what the grammar generates is read. */
  lemma {:induction false} Generated6(ts: seq<Token>)
    ensures Leaves(ts, Parse6(ts))
    ensures Parse6(ts).Some? ==> Is6(Used(ts, Parse6(ts).value.1), Parse6(ts).value.0)
    decreases |ts|, 0
  {
    hide Parse4, Is4, Used;
    if ts != [] {
      var rest, p := ts[1..], Parse6(ts);
      assert ts == [ts[0]] + rest;
      match ts[0] {
        case TMinus => Generated6(rest); if p.Some? { UsedMore(ts[0], rest, p.value.1); }
        case TPlus => Generated6(rest); if p.Some? { UsedMore(ts[0], rest, p.value.1); }
        case TTilde => Generated6(rest); if p.Some? { UsedMore(ts[0], rest, p.value.1); }
        case TBang => Generated6(rest); if p.Some? { UsedMore(ts[0], rest, p.value.1); }
        case TOpen =>
          Generated4(rest);
          if p.Some? { UsedParen(rest, Parse4(rest).value.1); }
        case _ => if p.Some? { UsedOne(ts); }
      }
    }
  }

  lemma UsedOne(ts: seq<Token>)
    requires ts != []
    ensures Used(ts, ts[1..]) == [ts[0]] && ts == Used(ts, ts[1..]) + ts[1..]
  {}

  lemma UsedParen(ts: seq<Token>, rest: seq<Token>)
    requires |rest| <= |ts| && ts == Used(ts, rest) + rest && rest != [] && rest[0].TClose?
    ensures var all := Used([TOpen] + ts, rest[1..]);
            && [TOpen] + ts == all + rest[1..]
            && |all| >= 2 && all[0] == TOpen && all[|all| - 1] == TClose && all[1..|all| - 1] == Used(ts, rest)
  {
    hide Used;
    UsedOne(rest);
    UsedBoth(ts, rest, rest[1..]);
    UsedMore(TOpen, ts, rest[1..]);
  }

  /** The loop over products goes on from what was read before. */
  lemma {:induction false} Generated5Loop(before: seq<Token>, e: Expr, ts: seq<Token>)
    requires Is5(before, e)
    ensures Leaves(ts, Loop5(e, ts))
    ensures Loop5(e, ts).Some? ==>
              Is5(before + Used(ts, Loop5(e, ts).value.1), Loop5(e, ts).value.0) &&
              !MultiplyingNext(Loop5(e, ts).value.1)
    decreases |ts|, 1
  {
    hide Parse6, Is6, Used;
    if !MultiplyingNext(ts) {
      UsedNone(before, ts);
    } else if Parse6(ts[1..]).Some? {
      var p := Parse6(ts[1..]).value;
      Generated6(ts[1..]);
      var used := Used(ts[1..], p.1);
      Joined(before, ts[0], used);
      var e' := Product(ts[0].op, e, p.0);
      Generated5Loop(before + [ts[0]] + used, e', p.1);
      if Loop5(e', p.1).Some? { UsedChain(before, ts, p.1, Loop5(e', p.1).value.1); }
    }
  }

  lemma UsedNone(before: seq<Token>, ts: seq<Token>)
    ensures before + Used(ts, ts) == before && ts == Used(ts, ts) + ts
  {}

  lemma UsedChain(before: seq<Token>, ts: seq<Token>, mid: seq<Token>, rest: seq<Token>)
    requires ts != [] && |mid| <= |ts[1..]| && ts[1..] == Used(ts[1..], mid) + mid
    requires |rest| <= |mid| && mid == Used(mid, rest) + rest
    ensures before + Used(ts, rest) == before + [ts[0]] + Used(ts[1..], mid) + Used(mid, rest)
    ensures ts == Used(ts, rest) + rest
  {
    hide Used;
    UsedBoth(ts[1..], mid, rest);
    UsedMore(ts[0], ts[1..], rest);
    assert ts == [ts[0]] + ts[1..];
    Associate(before, [ts[0]], Used(ts[1..], rest));
    Associate(before + [ts[0]], Used(ts[1..], mid), Used(mid, rest));
  }

  lemma {:induction false} Generated5(ts: seq<Token>)
    ensures Leaves(ts, Parse5(ts))
    ensures Parse5(ts).Some? ==>
              Is5(Used(ts, Parse5(ts).value.1), Parse5(ts).value.0) && !MultiplyingNext(Parse5(ts).value.1)
    decreases |ts|, 2
  {
    hide Parse6, Is6, Used;
    Generated6(ts);
    if Parse6(ts).Some? {
      var p := Parse6(ts).value;
      Generated5Loop(Used(ts, p.1), p.0, p.1);
      if Loop5(p.0, p.1).Some? { UsedBoth(ts, p.1, Loop5(p.0, p.1).value.1); }
    }
  }

  lemma UsedBoth(ts: seq<Token>, mid: seq<Token>, rest: seq<Token>)
    requires |mid| <= |ts| && ts == Used(ts, mid) + mid && |rest| <= |mid| && mid == Used(mid, rest) + rest
    ensures Used(ts, rest) == Used(ts, mid) + Used(mid, rest) && ts == Used(ts, rest) + rest
  {}

  lemma {:induction false} Generated4Loop(before: seq<Token>, e: Expr, ts: seq<Token>)
    requires Is4(before, e) && !MultiplyingNext(ts)
    ensures Leaves(ts, Loop4(e, ts))
    ensures Loop4(e, ts).Some? ==>
              Is4(before + Used(ts, Loop4(e, ts).value.1), Loop4(e, ts).value.0) &&
              !AddingNext(Loop4(e, ts).value.1) && !MultiplyingNext(Loop4(e, ts).value.1)
    decreases |ts|, 3
  {
    hide Parse5, Is5, Used;
    if !AddingNext(ts) {
      UsedNone(before, ts);
    } else if Parse5(ts[1..]).Some? {
      var p := Parse5(ts[1..]).value;
      Generated5(ts[1..]);
      var used := Used(ts[1..], p.1);
      Joined(before, ts[0], used);
      var e' := Sum(ts[0].TMinus?, e, p.0);
      Generated4Loop(before + [ts[0]] + used, e', p.1);
      if Loop4(e', p.1).Some? { UsedChain(before, ts, p.1, Loop4(e', p.1).value.1); }
    }
  }

  lemma {:induction false} Generated4(ts: seq<Token>)
    ensures Leaves(ts, Parse4(ts))
    ensures Parse4(ts).Some? ==>
              Is4(Used(ts, Parse4(ts).value.1), Parse4(ts).value.0) &&
              !AddingNext(Parse4(ts).value.1) && !MultiplyingNext(Parse4(ts).value.1)
    decreases |ts|, 4
  {
    hide Parse5, Is5, Used;
    Generated5(ts);
    if Parse5(ts).Some? {
      var p := Parse5(ts).value;
      Generated4Loop(Used(ts, p.1), p.0, p.1);
      if Loop4(p.0, p.1).Some? { UsedBoth(ts, p.1, Loop4(p.0, p.1).value.1); }
    }
  }

  /** The parser reads an expression off the front of a text if and only if the
      grammar generates that front from it and no operator follows; so what the
      grammar generates has one expression only. */
  lemma ParsesGrammar(front: seq<Token>, rest: seq<Token>, e: Expr)
    ensures Parse4(front + rest) == Some((e, rest)) <==>
            Is4(front, e) && !AddingNext(rest) && !MultiplyingNext(rest)
  {
    hide Parse4, Is4;
    var ts := front + rest;
    if Is4(front, e) && !AddingNext(rest) && !MultiplyingNext(rest) {
      Reads4(front, e, rest);
    }
    if Parse4(ts) == Some((e, rest)) {
      Generated4(ts);
      assert Used(ts, rest) == front;
    }
  }

  // ----- printing with the fewest parentheses -----------------------------------------------

  function Rank(level: nat, e: Expr): nat {
    match e
    case Sum(_, _, _) => if level == 4 then 0 else if level == 5 then 3 else 2
    case Product(_, _, _) => if level == 4 then 1 else if level == 5 then 0 else 2
    case _ => 6 - (if level <= 6 then level else 6)
  }

  function Show4(e: Expr): seq<Token>
    decreases e, Rank(4, e)
  {
    match e
    case Sum(minus, a, b) => Show4(a) + [Sign(minus)] + Show5(b)
    case _ => Show5(e)
  }

  function Show5(e: Expr): seq<Token>
    decreases e, Rank(5, e)
  {
    match e
    case Product(op, a, b) => Show5(a) + [TOp(op)] + Show6(b)
    case _ => Show6(e)
  }

  function Show6(e: Expr): seq<Token>
    decreases e, Rank(6, e)
  {
    match e
    case Num(n) => [TNum(n)]
    case Reg(r) => [TReg(r)]
    case Symbol(s) => [TId(s)]
    case Here => [THere]
    case Base => [TBase]
    case Neg(x) => [TMinus] + Show6(x)
    case Compl(x) => [TTilde] + Show6(x)
    case Not(x) => [TBang] + Show6(x)
    case Sum(_, _, _) => [TOpen] + Show4(e) + [TClose]
    case Product(_, _, _) => [TOpen] + Show4(e) + [TClose]
  }

  lemma {:induction false} Shows6(e: Expr)
    ensures Is6(Show6(e), e)
    decreases e, Rank(6, e)
  {
    hide Is4;
    match e {
      case Neg(x) => Shows6(x);
      case Compl(x) => Shows6(x);
      case Not(x) => Shows6(x);
      case Sum(_, _, _) => Shows4(e); ShownParen(e);
      case Product(_, _, _) => Shows4(e); ShownParen(e);
      case _ =>
    }
  }

  lemma ShownParen(e: Expr)
    requires Is4(Show4(e), e)
    ensures Is6([TOpen] + Show4(e) + [TClose], e)
  {
    hide Is4, Show4;
    var ts := [TOpen] + Show4(e) + [TClose];
    assert ts[1..|ts| - 1] == Show4(e);
  }

  lemma {:induction false} Shows5(e: Expr)
    ensures Is5(Show5(e), e)
    decreases e, Rank(5, e)
  {
    hide Is6;
    match e {
      case Product(op, a, b) =>
        Shows5(a);
        Shows6(b);
        Joined(Show5(a), TOp(op), Show6(b));
      case _ => Shows6(e);
    }
  }

  lemma {:induction false} Shows4(e: Expr)
    ensures Is4(Show4(e), e)
    decreases e, Rank(4, e)
  {
    hide Is5;
    match e {
      case Sum(minus, a, b) =>
        Shows4(a);
        Shows5(b);
        Joined(Show4(a), Sign(minus), Show5(b));
      case _ => Shows5(e);
    }
  }

  /** Every expression has a text, and it is read back. */
  lemma PrintParse(e: Expr, rest: seq<Token>)
    requires !AddingNext(rest) && !MultiplyingNext(rest)
    ensures Parse4(Show4(e) + rest) == Some((e, rest))
  {
    hide Parse4, Is4, Show4;
    Shows4(e);
    ParsesGrammar(Show4(e), rest, e);
  }

  // ----- the evaluator ------------------------------------------------------------------------

  /** A result agrees with a parse: the vector of the parsed expression, or None
      where the text or one of its operations is refused. */
  ghost predicate Agrees(p: Parsed, c: Context, r: Option<Vec>, rest: seq<Token>)
    requires ContextOk(c)
  {
    match p
    case None => r.None?
    case Some(q) => r == Value(q.0, c) && (r.Some? ==> rest == q.1)
  }

  /** A refused operand makes the whole chain refused. */
  lemma {:induction false} Refused5(e: Expr, ts: seq<Token>, c: Context)
    requires ContextOk(c) && Value(e, c).None?
    ensures Loop5(e, ts).Some? ==> Value(Loop5(e, ts).value.0, c).None?
    decreases |ts|
  {
    hide Parse6;
    if MultiplyingNext(ts) {
      var p := Parse6(ts[1..]);
      if p.Some? { Refused5(Product(ts[0].op, e, p.value.0), p.value.1, c); }
    }
  }

  lemma {:induction false} Refused4(e: Expr, ts: seq<Token>, c: Context)
    requires ContextOk(c) && Value(e, c).None?
    ensures Loop4(e, ts).Some? ==> Value(Loop4(e, ts).value.0, c).None?
    decreases |ts|
  {
    hide Parse5;
    if AddingNext(ts) {
      var p := Parse5(ts[1..]);
      if p.Some? { Refused4(Sum(ts[0].TMinus?, e, p.value.0), p.value.1, c); }
    }
  }

  class Parser {
    const c: Context
    var tokens: seq<Token>

    constructor (c: Context, tokens: seq<Token>)
      ensures this.c == c && this.tokens == tokens
    {
      this.c, this.tokens := c, tokens;
    }

    method Scan()
      requires tokens != []
      modifies this`tokens
      ensures tokens == old(tokens)[1..]
    {
      tokens := tokens[1..];
    }

    /** evaluate, without WRT: the result is sorted, and under every assignment it
        has the value of the expression that was read. */
    method Evaluate() returns (r: Option<Vec>)
      requires ContextOk(c)
      modifies this`tokens
      ensures r.Some? <==> Parse4(old(tokens)).Some? && Defined(Parse4(old(tokens)).value.0, c)
      ensures r.Some? ==> tokens == Parse4(old(tokens)).value.1 && Good(r.value)
      ensures r.Some? ==> forall env: Env ::
        Wrap(Eval(r.value, env)) == Wrap(Meaning(Parse4(old(tokens)).value.0, c, env))
    {
      hide ContextOk, Value, Good, Parse4, Eval, Scale, Meaning, Wrap, Defined;
      ghost var p := Parse4(tokens);
      if p.Some? { ValueDefined(p.value.0, c); }
      r := Expr4();
      if r.None? { return; }
      ghost var e := p.value.0;
      ValueGood(e, c);
      GoodParts(r.value);
      ScaleGood(r.value, 1);
      var v := ScalarMult(r.value, 1);
      forall env: Env
        ensures Wrap(Eval(v, env)) == Wrap(Meaning(e, c, env))
      {
        ScaleMeaning(r.value, 1, env);
        ValueMeaning(e, c, env);
      }
      return Some(v);
    }

    method Expr4() returns (r: Option<Vec>)
      requires ContextOk(c)
      modifies this`tokens
      ensures Agrees(Parse4(old(tokens)), c, r, tokens)
      decreases |tokens|, 4
    {
      hide ContextOk, Value, Good, Parse5, Merge, Scale;
      ghost var parsed := Parse5(tokens);
      r := Expr5();
      if r.None? {
        if parsed.Some? { Refused4(parsed.value.0, parsed.value.1, c); }
        return;
      }
      var e := r.value;
      ghost var ast := parsed.value.0;
      while AddingNext(tokens)
        invariant |tokens| < |old(tokens)| && Value(ast, c) == Some(e)
        invariant Parse4(old(tokens)) == Loop4(ast, tokens)
        decreases |tokens|
      {
        var j := tokens[0];
        ghost var before := tokens;
        Scan();
        parsed := Parse5(tokens);
        var f := Expr5();
        if f.None? {
          if parsed.Some? {
            SumRefused(j.TMinus?, ast, parsed.value.0, c);
            Refused4(Sum(j.TMinus?, ast, parsed.value.0), parsed.value.1, c);
          }
          return None;
        }
        ghost var ast' := parsed.value.0;
        ValueGood(ast, c);
        ValueGood(ast', c);
        SumValue(j.TMinus?, ast, ast', c);
        var w := f.value;
        if j.TMinus? {
          w := ScalarMult(w, -1);
          ScaleGood(f.value, -1);
        }
        GoodParts(e);
        GoodParts(w);
        e := AddVectors(e, w);
        ast := Sum(j.TMinus?, ast, ast');
      }
      return Some(e);
    }

    method Expr5() returns (r: Option<Vec>)
      requires ContextOk(c)
      modifies this`tokens
      ensures Agrees(Parse5(old(tokens)), c, r, tokens)
      decreases |tokens|, 2
    {
      hide ContextOk, Value, Good, Parse6, Multiply, Scalar;
      ghost var parsed := Parse6(tokens);
      r := Expr6();
      if r.None? {
        if parsed.Some? { Refused5(parsed.value.0, parsed.value.1, c); }
        return;
      }
      var e := r.value;
      ghost var ast := parsed.value.0;
      while MultiplyingNext(tokens)
        invariant |tokens| < |old(tokens)| && Value(ast, c) == Some(e)
        invariant Parse5(old(tokens)) == Loop5(ast, tokens)
        decreases |tokens|
      {
        var op := tokens[0].op;
        Scan();
        parsed := Parse6(tokens);
        var f := Expr6();
        if f.None? {
          if parsed.Some? {
            ProductRefused(op, ast, parsed.value.0, c);
            Refused5(Product(op, ast, parsed.value.0), parsed.value.1, c);
          }
          return None;
        }
        ValueGood(ast, c);
        ValueGood(parsed.value.0, c);
        ProductValue(op, ast, parsed.value.0, c);
        var m := Operate(op, e, f.value);
        ast := Product(op, ast, parsed.value.0);
        if m.None? {
          Refused5(ast, tokens, c);
          return None;
        }
        e := m.value;
      }
      return Some(e);
    }

    method Expr6() returns (r: Option<Vec>)
      requires ContextOk(c)
      modifies this`tokens
      ensures Agrees(Parse6(old(tokens)), c, r, tokens)
      decreases |tokens|, 0
    {
      hide ContextOk, Good, Parse4, Scale, Scalar;
      if tokens == [] { return None; }
      var t := tokens[0];
      match t {
        case TMinus =>
          Scan();
          ghost var p := Parse6(tokens);
          r := Expr6();
          if r.None? { return; }
          ValueGood(p.value.0, c);
          GoodParts(r.value);
          var v := ScalarMult(r.value, -1);
          return Some(v);
        case TPlus =>
          Scan();
          r := Expr6();
        case TTilde =>
          Scan();
          ghost var p := Parse6(tokens);
          r := Expr6();
          if r.None? { return; }
          ValueGood(p.value.0, c);
          GoodParts(r.value);
          var simple := IsSimple(r.value);
          if !simple { return None; }
          var x := RelocValue(r.value);
          ScalarReloc(r.value, x);
          return Some(ScalarVect(-1 - x as int));
        case TBang =>
          Scan();
          ghost var p := Parse6(tokens);
          r := Expr6();
          if r.None? { return; }
          ValueGood(p.value.0, c);
          GoodParts(r.value);
          var simple := IsSimple(r.value);
          if !simple { return None; }
          var x := RelocValue(r.value);
          ScalarReloc(r.value, x);
          return Some(ScalarVect(if x == 0 then 1 else 0));
        case TOpen =>
          Scan();
          r := Expr4();
          if r.None? { return; }
          if tokens == [] || !tokens[0].TClose? { return None; }
          Scan();
        case TNum(n) =>
          Scan();
          return Some(ScalarVect(n));
        case TReg(reg) =>
          Scan();
          return Some([Term(reg, 1)]);
        case TId(name) =>
          if name !in c.labels { return None; }
          Scan();
          return Some(LabelVect(c.labels[name]));
        case THere =>
          Scan();
          return Some(LabelVect(c.here));
        case TBase =>
          Scan();
          return Some(LabelVect(c.here.(ofs := 0)));
        case TOp(_) => return None;
        case TClose => return None;
        case TEos => return None;
      }
    }
  }

  /** The switch of expr5. */
  method Operate(op: Op, e: Vec, f: Vec) returns (r: Option<Vec>)
    requires Good(e) && Good(f)
    ensures r == Multiply(op, e, f)
  {
    hide Scalar, Scale, Apply;
    GoodParts(e);
    GoodParts(f);
    var es := IsSimple(e);
    var fs := IsSimple(f);
    if !op.Mul? && (!es || !fs) { return None; }
    var x := RelocValue(e);
    var y := RelocValue(f);
    if es { ScalarReloc(e, x); }
    if fs { ScalarReloc(f, y); }
    if !op.Mul? && y == 0 { return None; }
    if op.Mul? {
      if es {
        var v := ScalarMult(f, x);
        return Some(v);
      }
      if fs {
        var v := ScalarMult(e, y);
        return Some(v);
      }
      return None;
    }
    NumberBound(e);
    NumberBound(f);
    return Some(ScalarVect(Apply(op, x, y)));
  }

  lemma GoodParts(v: Vec)
    requires Good(v)
    ensures Sorted(v) && Plain(v)
  {}

  /** What RelocValue ensures, for a scalar. */
  lemma ScalarReloc(v: Vec, x: nat)
    requires Scalar(v)
    requires (forall i :: 0 <= i < |v| && v[i].kind < EXPR_SIMPLE ==> v[i].value == 0) ==>
               x == Coefficient(v, EXPR_SIMPLE)
    ensures x == Number(v)
  {}

  lemma {:induction false} ValueGood(e: Expr, c: Context)
    requires ContextOk(c) && Value(e, c).Some?
    ensures Good(Value(e, c).value)
  {}

  lemma {:induction false} SumValue(minus: bool, a: Expr, b: Expr, c: Context)
    requires ContextOk(c) && Value(a, c).Some? && Value(b, c).Some?
    ensures Value(Sum(minus, a, b), c) ==
            Some(Add(minus, Value(a, c).value, Value(b, c).value))
  {
    hide Add, Scale, Good, ContextOk, Multiply, LabelVect, ScalarVect, Scalar;
  }

  lemma {:induction false} SumRefused(minus: bool, a: Expr, b: Expr, c: Context)
    requires ContextOk(c) && Value(b, c).None?
    ensures Value(Sum(minus, a, b), c).None?
  {
    hide Add, Scale, Good, ContextOk, Multiply, LabelVect, ScalarVect, Scalar;
  }

  lemma {:induction false} ProductValue(op: Op, a: Expr, b: Expr, c: Context)
    requires ContextOk(c) && Value(a, c).Some? && Value(b, c).Some?
    ensures Value(Product(op, a, b), c) == Multiply(op, Value(a, c).value, Value(b, c).value)
  {
    hide Add, Scale, Good, ContextOk, Multiply, LabelVect, ScalarVect, Scalar;
  }

  lemma {:induction false} ProductRefused(op: Op, a: Expr, b: Expr, c: Context)
    requires ContextOk(c) && Value(b, c).None?
    ensures Value(Product(op, a, b), c).None?
  {
    hide Add, Scale, Good, ContextOk, Multiply, LabelVect, ScalarVect, Scalar;
  }
}
