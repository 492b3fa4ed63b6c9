// The reference cases of the context oracle and the grading loop
// (fixtures/evals/judgement/context_oracle.py, grade; contracts in context_scenarios.py).
//
// Every reference generator meets its scenario's written contract on its whole domain, so a pass
// is agreement of the submitted expression with the contract on every reference input.
module ReferenceGrading {
  import opened Wrappers
  import opened ExpressionOracle

  datatype Scenario = RetryWindow | LocalMinute | BucketRoute | StorageBlocks | SensorClamp | InvoiceRounding

  // ----- The written contracts -----

  ghost predicate InDomain(s: Scenario, x: int) {
    match s
    case SensorClamp => true
    case LocalMinute => 0 <= x < 1440
    case _ => 0 <= x
  }

  // y is what the contract of the scenario requires for x.
  ghost predicate Meets(s: Scenario, x: int, y: int)
    requires InDomain(s, x)
  {
    match s
    // 75 ms, doubling per attempt, capped at 900.
    case RetryWindow => y == if 75 * Power(2, x) <= 900 then 75 * Power(2, x) else 900
    // The minute of the day 345 minutes earlier, wrapped modulo 1440.
    case LocalMinute => 0 <= y < 1440 && (y - (x - 345)) % 1440 == 0
    case BucketRoute => y == (x * 7 + 3) % 11
    // The least number of 4096-byte blocks covering the payload.
    case StorageBlocks => 0 <= y && x <= 4096 * y && forall m: nat :: x <= 4096 * m ==> y <= m
    // Inclusive clamp to -40 .. 125, keeping the values inside.
    case SensorClamp => -40 <= y <= 125 && (-40 <= x <= 125 ==> y == x) && (x < -40 ==> y == -40) && (125 < x ==> y == 125)
    // 7 percent, to the nearest cent, exact halves upward.
    case InvoiceRounding => 100 * y - 50 <= 7 * x < 100 * y + 50
  }

  lemma {:induction false} MeetsOnce(s: Scenario, x: int, y: int, z: int)
    requires InDomain(s, x) && Meets(s, x, y) && Meets(s, x, z)
    ensures y == z
  {
  }

  // ----- The generators -----

  datatype Case = Case(input: int, expected: int)

  const CYCLE: seq<int> := [3, 10, 6, 2, 9, 5, 1, 8, 4, 0, 7]

  // One reference value, for every scenario but the one whose cases a loop builds.
  function Reference(s: Scenario, x: int): int
    requires InDomain(s, x)
  {
    match s
    case RetryWindow => Delay(x)
    case LocalMinute => if x >= 345 then x - 345 else x + 1095
    case BucketRoute => CYCLE[x % 11]
    case StorageBlocks => x / 4096 + if x % 4096 != 0 then 1 else 0
    case SensorClamp => if x < -40 then -40 else if x > 125 then 125 else x
    case InvoiceRounding => 7 * x / 100 + if 7 * x % 100 >= 50 then 1 else 0
  }

  // The delay after n steps of the doubling loop.
  function Delay(n: nat): int {
    if n == 0 then 75 else if Delay(n - 1) * 2 > 900 then 900 else Delay(n - 1) * 2
  }

  lemma {:induction false} DelayIsCapped(n: nat)
    ensures Meets(RetryWindow, n, Delay(n)) && 1 <= Power(2, n)
  {
    if n > 0 {
      DelayIsCapped(n - 1);
      assert Power(2, n) == 2 * Power(2, n - 1);
    }
  }

  lemma {:induction false} CycleIsLinear(r: nat)
    requires r < 11
    ensures CYCLE[r] == (7 * r + 3) % 11
  {
  }

  // Every generator meets its contract on the whole domain, not only at the listed inputs.
  lemma {:induction false} ReferenceMeets(s: Scenario, x: int)
    requires InDomain(s, x)
    ensures Meets(s, x, Reference(s, x))
  {
    match s
    case RetryWindow => DelayIsCapped(x);
    case BucketRoute =>
      CycleIsLinear(x % 11);
      var q := x / 11;
      assert x == 11 * q + x % 11;
      assert x * 7 + 3 == 11 * (7 * q) + (7 * (x % 11) + 3);
      SameRemainder(7 * (x % 11) + 3, 7 * q);
    case StorageBlocks =>
      assert x == 4096 * (x / 4096) + x % 4096;
    case InvoiceRounding =>
      assert 7 * x == 100 * (7 * x / 100) + 7 * x % 100;
    case _ =>
  }

  lemma {:induction false} SameRemainder(a: int, k: int)
    ensures (11 * k + a) % 11 == a % 11
  {
    assert 11 * k + a == 11 * (k + a / 11) + a % 11;
  }

  function Span(lo: int, hi: int): seq<int>
    requires lo <= hi
  {
    seq(hi - lo, i => lo + i)
  }

  // The inputs each scenario is tested at.
  function Inputs(s: Scenario): seq<int> {
    match s
    case RetryWindow => Span(0, 32)
    case LocalMinute => Span(0, 1440)
    case BucketRoute => Span(0, 256) + [10000, 100001]
    case StorageBlocks => [0, 1, 4095, 4096, 4097, 8191, 8192, 8193, 1000001]
    case SensorClamp => Span(-200, 301)
    case InvoiceRounding => Span(0, 1000) + [100001, 999999]
  }

  lemma {:induction false} InputsInDomain(s: Scenario)
    ensures forall x :: x in Inputs(s) ==> InDomain(s, x) && Abs(x) <= RESULT_LIMIT
  {
  }

  // The doubling loop of the retry scenario.
  method RetryCases(count: nat) returns (cases: seq<Case>)
    ensures |cases| == count && forall i :: 0 <= i < count ==> cases[i].input == i && Meets(RetryWindow, i, cases[i].expected)
    ensures forall i :: 0 <= i < count ==> cases[i].expected == Delay(i)
  {
    cases := [];
    var delay := 75;
    for i := 0 to count
      invariant |cases| == i && delay == Delay(i)
      invariant forall k :: 0 <= k < i ==> cases[k] == Case(k, Delay(k))
    {
      cases := cases + [Case(i, delay)];
      delay := if delay * 2 > 900 then 900 else delay * 2;
    }
    forall i | 0 <= i < count ensures Meets(RetryWindow, i, cases[i].expected) {
      DelayIsCapped(i);
    }
  }

  method ListedCases(s: Scenario, inputs: seq<int>) returns (cases: seq<Case>)
    requires forall x :: x in inputs ==> InDomain(s, x)
    ensures |cases| == |inputs|
    ensures forall i :: 0 <= i < |cases| ==>
      cases[i].input == inputs[i] && InDomain(s, inputs[i]) && Meets(s, inputs[i], cases[i].expected)
  {
    hide InDomain, Meets, Reference;
    cases := [];
    for i := 0 to |inputs|
      invariant |cases| == i
      invariant forall k :: 0 <= k < i ==>
        cases[k].input == inputs[k] && InDomain(s, inputs[k]) && Meets(s, inputs[k], cases[k].expected)
    {
      assert inputs[i] in inputs;
      ReferenceMeets(s, inputs[i]);
      cases := cases + [Case(inputs[i], Reference(s, inputs[i]))];
    }
  }

  method ReferenceCases(s: Scenario) returns (cases: seq<Case>)
    ensures |cases| == |Inputs(s)|
    ensures forall i :: 0 <= i < |cases| ==>
      cases[i].input == Inputs(s)[i] && InDomain(s, cases[i].input) && Meets(s, cases[i].input, cases[i].expected)
  {
    InputsInDomain(s);
    if s == RetryWindow {
      cases := RetryCases(32);
      assert Inputs(s) == Span(0, 32);
    } else {
      hide Inputs, InDomain, Meets;
      cases := ListedCases(s, Inputs(s));
    }
  }

  // The submitted body meets the contract at x, as a denotation over unbounded integers.
  ghost predicate Agrees(s: Scenario, body: Expr, argument: string, x: int) {
    InDomain(s, x) && exists v :: Denotes(body, argument, x, v) && Meets(s, x, v)
  }

  // The comparison loop: a pass is agreement, within bounds, at every reference input.
  method Grade(s: Scenario, body: Expr, argument: string) returns (pass: bool)
    ensures pass <==> forall x :: x in Inputs(s) ==> Agrees(s, body, argument, x) && InBounds(body, argument, x)
  {
    hide Inputs, InBounds, Agrees, Evaluate, Meets, InDomain;
    var cases := ReferenceCases(s);
    for i := 0 to |cases|
      invariant forall k :: 0 <= k < i ==> Agrees(s, body, argument, Inputs(s)[k]) && InBounds(body, argument, Inputs(s)[k])
    {
      var input, expected := cases[i].input, cases[i].expected;
      CaseAgrees(s, body, argument, input, expected);
      if Evaluate(body, argument, input) != Some(expected) {
        assert input in Inputs(s);
        return false;
      }
    }
    return true;
  }

  lemma {:induction false} CaseAgrees(s: Scenario, body: Expr, argument: string, input: int, expected: int)
    requires InDomain(s, input) && Meets(s, input, expected)
    ensures Evaluate(body, argument, input) == Some(expected)
       <==> Agrees(s, body, argument, input) && InBounds(body, argument, input)
  {
    EvaluateExact(body, argument, input, expected);
    if Agrees(s, body, argument, input) {
      var v :| Denotes(body, argument, input, v) && Meets(s, input, v);
      MeetsOnce(s, input, v, expected);
    }
  }

  // The inputs, number by number.
  lemma {:induction false} InputsListed(s: Scenario, x: int)
    ensures x in Inputs(s) <==>
            match s
            case RetryWindow => 0 <= x <= 31
            case LocalMinute => 0 <= x <= 1439
            case BucketRoute => 0 <= x <= 255 || x == 10000 || x == 100001
            case StorageBlocks =>
              x == 0 || x == 1 || x == 4095 || x == 4096 || x == 4097 || x == 8191 || x == 8192 || x == 8193 || x == 1000001
            case SensorClamp => -200 <= x <= 300
            case InvoiceRounding => 0 <= x <= 999 || x == 100001 || x == 999999
  {
    match s
    case RetryWindow => InSpan(0, 32, x);
    case LocalMinute => InSpan(0, 1440, x);
    case BucketRoute => InSpan(0, 256, x);
    case SensorClamp => InSpan(-200, 301, x);
    case InvoiceRounding => InSpan(0, 1000, x);
    case StorageBlocks =>
  }

  lemma {:induction false} InSpan(lo: int, hi: int, x: int)
    requires lo <= hi
    ensures x in Span(lo, hi) <==> lo <= x < hi
  {
    if lo <= x < hi {
      assert Span(lo, hi)[x - lo] == x;
    }
  }

  // The clock scenario is tested on its whole domain.
  lemma {:induction false} MinutesAreExhaustive(x: int)
    ensures x in Inputs(LocalMinute) <==> InDomain(LocalMinute, x)
  {
    if 0 <= x < 1440 {
      assert Inputs(LocalMinute)[x] == x;
    }
  }
}
