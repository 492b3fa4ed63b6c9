// The bounded expression oracle (fixtures/evals/judgement/context_oracle.py, _expression).
//
// Evaluate interprets a small pure subset of Python under magnitude bounds. Whatever number it
// returns is the number the expression denotes over unbounded integers, and no integer computed
// on the way grows past a fixed size.
module ExpressionOracle {
  import opened Wrappers

  datatype Operator = Add | Sub | Mult | FloorDiv | Mod | Pow | OtherOperator

  // Call: a call of a named function; `keywords` tells whether it passes any.
  datatype Expr =
    | Constant(n: int)
    | Name(id: string)
    | Binary(op: Operator, left: Expr, right: Expr)
    | Negate(operand: Expr)
    | Call(func: string, args: seq<Expr>, keywords: bool)
    | Unsupported

  const CONSTANT_LIMIT: int := 1_000_000
  const RESULT_LIMIT: int := 1_000_000_000_000_000
  const BASE_LIMIT: int := 1000
  const EXPONENT_LIMIT: int := 32

  function Abs(x: int): int {
    if x < 0 then -x else x
  }

  function Power(base: int, n: nat): int {
    if n == 0 then 1 else base * Power(base, n - 1)
  }

  // Python's floor division and modulo, over Dafny's Euclidean operators.
  function FloorQuotient(a: int, b: int): int
    requires b != 0
  {
    if b > 0 then a / b else (-a) / (-b)
  }

  function FloorRemainder(a: int, b: int): int
    requires b != 0
  {
    a - FloorQuotient(a, b) * b
  }

  function Least(vs: seq<int>): (m: int)
    requires vs != []
    ensures m in vs && forall v :: v in vs ==> m <= v
  {
    if |vs| == 1 then vs[0]
    else
      var rest := Least(vs[1..]);
      assert vs == [vs[0]] + vs[1..];
      if vs[0] <= rest then vs[0] else rest
  }

  function Greatest(vs: seq<int>): (m: int)
    requires vs != []
    ensures m in vs && forall v :: v in vs ==> v <= m
  {
    if |vs| == 1 then vs[0]
    else
      var rest := Greatest(vs[1..]);
      assert vs == [vs[0]] + vs[1..];
      if vs[0] >= rest then vs[0] else rest
  }

  // ----- The evaluator -----

  predicate IsLeaf(e: Expr, argument: string) {
    (e.Constant? && Abs(e.n) <= CONSTANT_LIMIT) || (e.Name? && e.id == argument)
  }

  function Evaluate(e: Expr, argument: string, value: int): Option<int>
    decreases e, 1
  {
    if IsLeaf(e, argument) then Some(if e.Constant? then e.n else value)
    else
      match Raw(e, argument, value)
      case Some(r) => if Abs(r) <= RESULT_LIMIT then Some(r) else None
      case None => None
  }

  // The result of an inner node before its bound is checked, or None where Python raises.
  function Raw(e: Expr, argument: string, value: int): Option<int>
    decreases e, 0
  {
    match e
    case Binary(op, left, right) =>
      if op == OtherOperator then None
      else
        var l := Evaluate(left, argument, value);
        var r := Evaluate(right, argument, value);
        if l.None? || r.None? then None else Operate(op, l.value, r.value)
    case Negate(operand) =>
      var v := Evaluate(operand, argument, value);
      if v.None? then None else Some(-v.value)
    case Call(func, args, keywords) =>
      if func !in {"min", "max", "abs"} || keywords || !(1 <= |args| <= 8) then None
      else
        var vs := EvaluateAll(args, argument, value);
        if vs.None? then None
        else if func == "abs" && |args| == 1 then Some(Abs(vs.value[0]))
        else if func != "abs" && |args| >= 2 then Some(if func == "min" then Least(vs.value) else Greatest(vs.value))
        else None
    case _ => None
  }

  function Operate(op: Operator, l: int, r: int): Option<int>
    requires op != OtherOperator
  {
    match op
    case Add => Some(l + r)
    case Sub => Some(l - r)
    case Mult => Some(l * r)
    case FloorDiv => if r == 0 then None else Some(FloorQuotient(l, r))
    case Mod => if r == 0 then None else Some(FloorRemainder(l, r))
    case Pow => if !(0 <= r <= EXPONENT_LIMIT) || Abs(l) > BASE_LIMIT then None else Some(Power(l, r))
  }

  function EvaluateAll(es: seq<Expr>, argument: string, value: int): (vs: Option<seq<int>>)
    ensures vs.Some? ==> |vs.value| == |es|
    decreases es, 2
  {
    if es == [] then Some([])
    else
      var v := Evaluate(es[0], argument, value);
      var rest := EvaluateAll(es[1..], argument, value);
      if v.None? || rest.None? then None else Some([v.value] + rest.value)
  }

  // ----- What an expression denotes over unbounded integers -----

  // q is the floor of a / b.
  predicate IsFloor(a: int, b: int, q: int) {
    if b > 0 then q * b <= a < (q + 1) * b else (q + 1) * b < a <= q * b
  }

  ghost predicate Combines(op: Operator, l: int, r: int, v: int) {
    match op
    case Add => v == l + r
    case Sub => v == l - r
    case Mult => v == l * r
    case FloorDiv => r != 0 && IsFloor(l, r, v)
    case Mod => r != 0 && exists q :: IsFloor(l, r, q) && v == l - q * r
    case Pow => r >= 0 && v == Power(l, r)
    case OtherOperator => false
  }

  ghost predicate Selects(func: string, vs: seq<int>, v: int) {
    if func == "abs" then |vs| == 1 && v >= 0 && (v == vs[0] || v == -vs[0])
    else if func == "min" then |vs| >= 2 && v in vs && forall w :: w in vs ==> v <= w
    else func == "max" && |vs| >= 2 && v in vs && forall w :: w in vs ==> w <= v
  }

  // The expression denotes v when its argument is `value`.
  ghost predicate Denotes(e: Expr, argument: string, value: int, v: int)
    decreases e, 0
  {
    match e
    case Constant(n) => v == n
    case Name(id) => id == argument && v == value
    case Binary(op, left, right) =>
      exists l, r :: Denotes(left, argument, value, l) && Denotes(right, argument, value, r) && Combines(op, l, r, v)
    case Negate(operand) => Denotes(operand, argument, value, -v)
    case Call(func, args, keywords) =>
      !keywords && exists vs :: DenoteAll(args, argument, value, vs) && Selects(func, vs, v)
    case Unsupported => false
  }

  ghost predicate DenoteAll(es: seq<Expr>, argument: string, value: int, vs: seq<int>)
    decreases es, 1
  {
    |es| == |vs| && forall i :: 0 <= i < |es| ==> Denotes(es[i], argument, value, vs[i])
  }

  lemma {:induction false} FloorIsUnique(a: int, b: int, p: int, q: int)
    requires b != 0 && IsFloor(a, b, p) && IsFloor(a, b, q)
    ensures p == q
  {
    if p < q {
      FloorStep(b, p, q);
    } else if q < p {
      FloorStep(b, q, p);
    }
  }

  lemma {:induction false} FloorStep(b: int, p: int, q: int)
    requires p < q
    ensures b > 0 ==> (p + 1) * b <= q * b
    ensures b < 0 ==> (p + 1) * b >= q * b
  {
    var d := q - (p + 1);
    assert q * b == (p + 1) * b + d * b;
    if b > 0 { assert d * b >= 0; }
    if b < 0 { assert d * b <= 0; }
  }

  lemma {:induction false} FloorQuotientIsFloor(a: int, b: int)
    requires b != 0
    ensures IsFloor(a, b, FloorQuotient(a, b))
  {
    var q := FloorQuotient(a, b);
    if b > 0 {
      assert a == q * b + a % b;
    } else {
      assert -a == q * (-b) + (-a) % (-b);
      assert q * (-b) == -(q * b);
      assert (q + 1) * b == q * b + b;
    }
  }

  // An expression denotes at most one number.
  lemma {:induction false} DenotesOnce(e: Expr, argument: string, value: int, v: int, w: int)
    requires Denotes(e, argument, value, v) && Denotes(e, argument, value, w)
    ensures v == w
    decreases e
  {
    match e
    case Binary(op, left, right) =>
      var l, r :| Denotes(left, argument, value, l) && Denotes(right, argument, value, r) && Combines(op, l, r, v);
      var l', r' :| Denotes(left, argument, value, l') && Denotes(right, argument, value, r') && Combines(op, l', r', w);
      DenotesOnce(left, argument, value, l, l');
      DenotesOnce(right, argument, value, r, r');
      CombinesOnce(op, l, r, v, w);
    case Negate(operand) =>
      DenotesOnce(operand, argument, value, -v, -w);
    case Call(func, args, keywords) =>
      var vs :| DenoteAll(args, argument, value, vs) && Selects(func, vs, v);
      var ws :| DenoteAll(args, argument, value, ws) && Selects(func, ws, w);
      forall i | 0 <= i < |args| ensures vs[i] == ws[i] {
        DenotesOnce(args[i], argument, value, vs[i], ws[i]);
      }
      assert vs == ws;
    case _ =>
  }

  lemma {:induction false} CombinesOnce(op: Operator, l: int, r: int, v: int, w: int)
    requires Combines(op, l, r, v) && Combines(op, l, r, w)
    ensures v == w
  {
    match op
    case FloorDiv => FloorIsUnique(l, r, v, w);
    case Mod =>
      var p :| IsFloor(l, r, p) && v == l - p * r;
      var q :| IsFloor(l, r, q) && w == l - q * r;
      FloorIsUnique(l, r, p, q);
    case _ =>
  }

  // ----- The bounded evaluator agrees with the denotation -----

  lemma {:induction false} OperateCombines(op: Operator, l: int, r: int)
    requires op != OtherOperator && Operate(op, l, r).Some?
    ensures Combines(op, l, r, Operate(op, l, r).value)
  {
    if r != 0 && (op == FloorDiv || op == Mod) {
      FloorQuotientIsFloor(l, r);
    }
  }

  lemma {:induction false} EvaluateAllEach(es: seq<Expr>, argument: string, value: int, i: nat)
    requires i < |es| && EvaluateAll(es, argument, value).Some?
    ensures Evaluate(es[i], argument, value) == Some(EvaluateAll(es, argument, value).value[i])
  {
    if i > 0 {
      EvaluateAllEach(es[1..], argument, value, i - 1);
    }
  }

  // A returned number is the number denoted.
  lemma {:induction false} EvaluateDenotes(e: Expr, argument: string, value: int)
    requires Evaluate(e, argument, value).Some?
    ensures Denotes(e, argument, value, Evaluate(e, argument, value).value)
    decreases e
  {
    if !IsLeaf(e, argument) {
      match e
      case Binary(op, left, right) =>
        EvaluateDenotes(left, argument, value);
        EvaluateDenotes(right, argument, value);
        OperateCombines(op, Evaluate(left, argument, value).value, Evaluate(right, argument, value).value);
      case Negate(operand) =>
        EvaluateDenotes(operand, argument, value);
        var v := Evaluate(operand, argument, value).value;
        assert -(-v) == v;
      case Call(func, args, keywords) =>
        var vs := EvaluateAll(args, argument, value).value;
        forall i | 0 <= i < |args| ensures Denotes(args[i], argument, value, vs[i]) {
          EvaluateAllEach(args, argument, value, i);
          EvaluateDenotes(args[i], argument, value);
        }
        assert DenoteAll(args, argument, value, vs);
        assert Selects(func, vs, Evaluate(e, argument, value).value);
    }
  }

  // Every constant is small, every power has a small base and exponent, every call few arguments,
  // and every inner node denotes nothing beyond the result limit.
  ghost predicate InBounds(e: Expr, argument: string, value: int)
    decreases e
  {
    match e
    case Constant(n) => -1_000_000 <= n <= 1_000_000
    case Binary(op, left, right) =>
      && InBounds(left, argument, value) && InBounds(right, argument, value) && SmallNode(e, argument, value)
      && (op == Pow ==> forall l, r :: Denotes(left, argument, value, l) && Denotes(right, argument, value, r) ==>
            -1000 <= l <= 1000 && r <= 32)
    case Negate(operand) => InBounds(operand, argument, value) && SmallNode(e, argument, value)
    case Call(func, args, keywords) =>
      |args| <= 8 && (forall i :: 0 <= i < |args| ==> InBounds(args[i], argument, value)) && SmallNode(e, argument, value)
    case _ => true
  }

  ghost predicate SmallNode(e: Expr, argument: string, value: int) {
    forall v :: Denotes(e, argument, value, v) ==> -1_000_000_000_000_000 <= v <= 1_000_000_000_000_000
  }

  // The evaluator is exact: it returns the number denoted, and exactly when everything is in bounds.
  lemma {:induction false} EvaluateExact(e: Expr, argument: string, value: int, v: int)
    ensures Evaluate(e, argument, value) == Some(v) <==> Denotes(e, argument, value, v) && InBounds(e, argument, value)
  {
    if Evaluate(e, argument, value).Some? {
      EvaluateDenotes(e, argument, value);
      EvaluatedInBounds(e, argument, value);
    }
    if Denotes(e, argument, value, v) && InBounds(e, argument, value) {
      BoundedIsEvaluated(e, argument, value, v);
    }
  }

  lemma {:induction false} SmallByValue(e: Expr, argument: string, value: int, v: int)
    requires Denotes(e, argument, value, v) && Abs(v) <= RESULT_LIMIT
    ensures SmallNode(e, argument, value)
  {
    forall w | Denotes(e, argument, value, w) ensures Abs(w) <= RESULT_LIMIT {
      DenotesOnce(e, argument, value, v, w);
    }
  }

  lemma {:induction false} EvaluatedInBounds(e: Expr, argument: string, value: int)
    requires Evaluate(e, argument, value).Some?
    ensures InBounds(e, argument, value)
    decreases e
  {
    if !IsLeaf(e, argument) {
      EvaluateDenotes(e, argument, value);
      SmallByValue(e, argument, value, Evaluate(e, argument, value).value);
      match e
      case Binary(op, left, right) =>
        EvaluatedInBounds(left, argument, value);
        EvaluatedInBounds(right, argument, value);
        forall l, r | Denotes(left, argument, value, l) && Denotes(right, argument, value, r)
          ensures op == Pow ==> Abs(l) <= BASE_LIMIT && r <= EXPONENT_LIMIT
        {
          EvaluateDenotes(left, argument, value);
          EvaluateDenotes(right, argument, value);
          DenotesOnce(left, argument, value, l, Evaluate(left, argument, value).value);
          DenotesOnce(right, argument, value, r, Evaluate(right, argument, value).value);
        }
      case Negate(operand) =>
        EvaluatedInBounds(operand, argument, value);
      case Call(func, args, keywords) =>
        forall i | 0 <= i < |args| ensures InBounds(args[i], argument, value) {
          EvaluateAllEach(args, argument, value, i);
          EvaluatedInBounds(args[i], argument, value);
        }
    }
  }

  lemma {:induction false} CombinedIsOperated(op: Operator, l: int, r: int, v: int)
    requires Combines(op, l, r, v) && (op == Pow ==> Abs(l) <= BASE_LIMIT && r <= EXPONENT_LIMIT)
    ensures Operate(op, l, r) == Some(v)
  {
    OperateCombines(op, l, r);
    CombinesOnce(op, l, r, v, Operate(op, l, r).value);
  }

  lemma {:induction false} AllEvaluated(es: seq<Expr>, argument: string, value: int, vs: seq<int>)
    requires |es| == |vs| && forall i :: 0 <= i < |es| ==> Evaluate(es[i], argument, value) == Some(vs[i])
    ensures EvaluateAll(es, argument, value) == Some(vs)
  {
    if es != [] {
      AllEvaluated(es[1..], argument, value, vs[1..]);
      assert vs == [vs[0]] + vs[1..];
    } else {
      assert vs == [];
    }
  }

  lemma {:induction false} BoundedIsEvaluated(e: Expr, argument: string, value: int, v: int)
    requires Denotes(e, argument, value, v) && InBounds(e, argument, value)
    ensures Evaluate(e, argument, value) == Some(v)
    decreases e
  {
    match e
    case Binary(op, left, right) =>
      var l, r :| Denotes(left, argument, value, l) && Denotes(right, argument, value, r) && Combines(op, l, r, v);
      BoundedIsEvaluated(left, argument, value, l);
      BoundedIsEvaluated(right, argument, value, r);
      CombinedIsOperated(op, l, r, v);
    case Negate(operand) =>
      BoundedIsEvaluated(operand, argument, value, -v);
    case Call(func, args, keywords) =>
      var vs :| DenoteAll(args, argument, value, vs) && Selects(func, vs, v);
      forall i | 0 <= i < |args| ensures Evaluate(args[i], argument, value) == Some(vs[i]) {
        BoundedIsEvaluated(args[i], argument, value, vs[i]);
      }
      CallEvaluated(func, args, keywords, argument, value, vs, v);
    case _ =>
  }

  lemma {:induction false} CallEvaluated(func: string, args: seq<Expr>, keywords: bool, argument: string, value: int, vs: seq<int>, v: int)
    requires !keywords && |args| == |vs| <= 8 && Selects(func, vs, v) && Abs(v) <= RESULT_LIMIT
    requires forall i :: 0 <= i < |args| ==> Evaluate(args[i], argument, value) == Some(vs[i])
    ensures Evaluate(Call(func, args, keywords), argument, value) == Some(v)
  {
    AllEvaluated(args, argument, value, vs);
    assert Raw(Call(func, args, keywords), argument, value) == Some(v);
  }

  // The laws of powers, which fix them.
  lemma {:induction false} PowerLaws(base: int, m: nat, n: nat)
    ensures Power(base, 0) == 1 && Power(base, 1) == base && Power(base, m + n) == Power(base, m) * Power(base, n)
  {
    if m == 0 {
      assert Power(base, 1) == base * Power(base, 0);
    } else {
      PowerLaws(base, m - 1, n);
      var p, q := Power(base, m - 1), Power(base, n);
      assert Power(base, m + n) == base * (p * q) == (base * p) * q;
    }
  }

  // ----- Magnitudes -----

  const LARGEST: int := Power(1000, 32)

  lemma {:induction false} PowerGrows(n: nat, m: nat)
    requires n <= m
    ensures 1 <= Power(1000, n) <= Power(1000, m)
    decreases m
  {
    if n < m {
      PowerGrows(n, m - 1);
    } else if n > 0 {
      PowerGrows(n - 1, n - 1);
    }
  }

  lemma {:induction false} PowerWithin(base: int, n: nat)
    requires Abs(base) <= BASE_LIMIT
    ensures Abs(Power(base, n)) <= Power(1000, n)
  {
    if n > 0 {
      PowerWithin(base, n - 1);
      ProductWithin(base, Power(base, n - 1), 1000, Power(1000, n - 1));
    }
  }

  lemma {:induction false} ProductWithin(a: int, b: int, x: nat, y: nat)
    requires Abs(a) <= x && Abs(b) <= y
    ensures Abs(a * b) <= x * y
  {
    ProductOfMagnitudes(a, b);
    FactorGrows(Abs(a), x, Abs(b));
    FactorGrows(Abs(b), y, x);
  }

  lemma {:induction false} ProductOfMagnitudes(a: int, b: int)
    ensures Abs(a * b) == Abs(a) * Abs(b)
  {
    if a >= 0 && b >= 0 {
    } else if a >= 0 {
      assert a * b == -(a * -b);
    } else if b >= 0 {
      assert a * b == -(-a * b);
    } else {
      assert a * b == -a * -b;
    }
  }

  lemma {:induction false} FactorGrows(p: nat, x: nat, factor: nat)
    requires p <= x
    ensures p * factor <= x * factor && factor * p <= factor * x
    decreases x
  {
    if p < x {
      FactorGrows(p, x - 1, factor);
      assert x * factor == (x - 1) * factor + factor;
    }
  }

  lemma {:induction false} LargestIsLarge()
    ensures 1_000_000_000_000_000_000_000_000_000_000 <= LARGEST
  {
    assert Power(1000, 2) == 1000 * 1000 by { assert Power(1000, 1) == 1000; }
    assert Power(1000, 3) == 1_000_000_000;
    assert Power(1000, 4) == 1_000_000_000_000;
    assert Power(1000, 5) == 1_000_000_000_000_000;
    assert Power(1000, 6) == 1_000_000_000_000_000_000;
    assert Power(1000, 7) == 1_000_000_000_000_000_000_000;
    assert Power(1000, 8) == 1_000_000_000_000_000_000_000_000;
    assert Power(1000, 9) == 1_000_000_000_000_000_000_000_000_000;
    assert Power(1000, 10) == 1_000_000_000_000_000_000_000_000_000_000;
    PowerGrows(10, 32);
  }

  lemma {:induction false} MultipleAtLeast(x: nat, b: int)
    requires b >= 1
    ensures x * b >= x
  {
    assert x * (b - 1) >= 0;
  }

  lemma {:induction false} PositiveQuotientWithin(a: int, b: int)
    requires b > 0
    ensures Abs(a / b) <= Abs(a)
  {
    var q, r := a / b, a % b;
    assert a == q * b + r && 0 <= r < b;
    if q >= 0 {
      MultipleAtLeast(q, b);
    } else {
      MultipleAtLeast(-(q + 1), b);
      assert (-(q + 1)) * b == -(q * b) - b;
    }
  }

  lemma {:induction false} QuotientWithin(a: int, b: int)
    requires b != 0
    ensures Abs(FloorQuotient(a, b)) <= Abs(a)
    ensures Abs(FloorRemainder(a, b)) < Abs(b)
  {
    if b > 0 {
      PositiveQuotientWithin(a, b);
      DivideBack(a, b);
    } else {
      PositiveQuotientWithin(-a, -b);
      DivideBack(-a, -b);
      OppositeProduct((-a) / (-b), b);
    }
  }

  lemma {:induction false} DivideBack(a: int, b: int)
    requires b > 0
    ensures 0 <= a - (a / b) * b < b
  {
    assert a == (a / b) * b + a % b;
  }

  lemma {:induction false} OppositeProduct(q: int, b: int)
    ensures q * (-b) == -(q * b)
  {
  }

  lemma {:induction false} OperateWithin(op: Operator, l: int, r: int)
    requires op != OtherOperator && Operate(op, l, r).Some?
    requires Abs(l) <= RESULT_LIMIT && Abs(r) <= RESULT_LIMIT
    ensures Abs(Operate(op, l, r).value) <= LARGEST
  {
    LargestIsLarge();
    match op
    case Mult => ProductWithin(l, r, RESULT_LIMIT, RESULT_LIMIT);
    case FloorDiv => QuotientWithin(l, r);
    case Mod => QuotientWithin(l, r);
    case Pow =>
      PowerWithin(l, r);
      PowerGrows(r, 32);
    case _ =>
  }

  // One node: its result is within 10^15 and its unchecked result within 1000^32.
  lemma {:induction false} NodeBounded(e: Expr, argument: string, value: int)
    requires Abs(value) <= RESULT_LIMIT
    ensures Evaluate(e, argument, value).Some? ==> Abs(Evaluate(e, argument, value).value) <= RESULT_LIMIT
    ensures Raw(e, argument, value).Some? ==> Abs(Raw(e, argument, value).value) <= LARGEST
    decreases e
  {
    LargestIsLarge();
    match e
    case Binary(op, left, right) =>
      NodeBounded(left, argument, value);
      NodeBounded(right, argument, value);
      if Raw(e, argument, value).Some? {
        OperateWithin(op, Evaluate(left, argument, value).value, Evaluate(right, argument, value).value);
      }
    case Negate(operand) =>
      NodeBounded(operand, argument, value);
    case Call(func, args, keywords) =>
      if Raw(e, argument, value).Some? {
        var vs := EvaluateAll(args, argument, value).value;
        forall i | 0 <= i < |args| ensures Abs(vs[i]) <= RESULT_LIMIT {
          EvaluateAllEach(args, argument, value, i);
          NodeBounded(args[i], argument, value);
        }
        assert exists i :: 0 <= i < |args| && Abs(Raw(e, argument, value).value) == Abs(vs[i]);
      }
    case _ =>
  }

  // The node is the expression or occurs somewhere in it.
  ghost predicate Occurs(node: Expr, e: Expr)
    decreases e
  {
    node == e ||
    match e
    case Binary(_, left, right) => Occurs(node, left) || Occurs(node, right)
    case Negate(operand) => Occurs(node, operand)
    case Call(_, args, _) => exists i :: 0 <= i < |args| && Occurs(node, args[i])
    case _ => false
  }

  // The evaluator computes n somewhere in the expression: an operand, a result, or a result that is
  // then refused.
  ghost predicate Computes(e: Expr, argument: string, value: int, n: int) {
    exists node :: Occurs(node, e) && (Evaluate(node, argument, value) == Some(n) || Raw(node, argument, value) == Some(n))
  }

  // For an argument of magnitude at most 10^15, every integer computed anywhere in the expression is
  // within 1000^32, and every node's result within 10^15.
  lemma {:induction false} MagnitudesBounded(e: Expr, argument: string, value: int)
    requires Abs(value) <= RESULT_LIMIT
    ensures forall n :: Computes(e, argument, value, n) ==> Abs(n) <= LARGEST
    ensures forall node, n :: Occurs(node, e) && Evaluate(node, argument, value) == Some(n) ==> Abs(n) <= RESULT_LIMIT
  {
    LargestIsLarge();
    hide Occurs, Evaluate, Raw;
    forall node, n | Occurs(node, e) && Evaluate(node, argument, value) == Some(n) ensures Abs(n) <= RESULT_LIMIT {
      NodeBounded(node, argument, value);
    }
    forall n | Computes(e, argument, value, n) ensures Abs(n) <= LARGEST {
      var node :| Occurs(node, e) && (Evaluate(node, argument, value) == Some(n) || Raw(node, argument, value) == Some(n));
      NodeBounded(node, argument, value);
    }
  }

  // x + 2000000 - 2000000.
  function Detour(argument: string): Expr {
    Binary(Sub, Binary(Add, Name(argument), Constant(2_000_000)), Constant(2_000_000))
  }

  // An expression that denotes its argument everywhere, and that the evaluator refuses everywhere.
  lemma {:induction false} DetourIsRefused(argument: string, value: int)
    ensures Denotes(Detour(argument), argument, value, value)
    ensures Evaluate(Detour(argument), argument, value).None? && !InBounds(Detour(argument), argument, value)
  {
    var sum := Binary(Add, Name(argument), Constant(2_000_000));
    assert Denotes(Name(argument), argument, value, value);
    assert Denotes(Constant(2_000_000), argument, value, 2_000_000);
    assert Combines(Add, value, 2_000_000, value + 2_000_000);
    assert Denotes(sum, argument, value, value + 2_000_000);
    assert Combines(Sub, value + 2_000_000, 2_000_000, value);
    assert Evaluate(Constant(2_000_000), argument, value).None?;
  }
}
