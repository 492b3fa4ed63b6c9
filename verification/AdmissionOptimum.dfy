// Admission annotations of ranking cases: the corrector
// (fixtures/evals/judgement/correct_optional_admission.py) against the validator
// (fixtures/evals/judgement/benchmark.py, load).
//
// `weight` stands for the gain 2^r - 1 of a relevance grade; only its sign matters here.
module AdmissionOptimum {
  import opened Collections
  import opened Wrappers

  datatype Candidate = Candidate(id: string, shielded: bool, size: int)

  datatype Expected = Expected(relevance: map<string, real>, costs: map<string, int>, budget: int, k: int,
                               required: set<string>, allIds: seq<string>, gain: real)

  datatype Case = Case(recommendations: bool, candidates: seq<Candidate>, budgetUnits: int, expected: Expected)

  // ----- Sums over sets of ids -----

  ghost function Cost(s: set<string>, costs: map<string, int>): int
    requires s <= costs.Keys
  {
    if s == {} then 0 else var x := Pick(s); costs[x] + Cost(s - {x}, costs)
  }

  ghost function Gain(s: set<string>, relevance: map<string, real>, weight: real -> real): real
    requires s <= relevance.Keys
  {
    if s == {} then 0.0 else var x := Pick(s); weight(relevance[x]) + Gain(s - {x}, relevance, weight)
  }

  ghost function Pick(s: set<string>): (x: string)
    requires s != {}
    ensures x in s
  {
    var x :| x in s; x
  }

  lemma {:induction false} CostAdd(s: set<string>, x: string, costs: map<string, int>)
    requires s <= costs.Keys && x in costs && x !in s
    ensures Cost(s + {x}, costs) == Cost(s, costs) + costs[x]
    decreases |s|
  {
    var y := Pick(s + {x});
    if y == x {
      assert s + {x} - {x} == s;
    } else {
      assert s + {x} - {y} == (s - {y}) + {x};
      CostAdd(s - {y}, x, costs);
      CostAdd(s - {y}, y, costs);
      assert (s - {y}) + {y} == s;
    }
  }

  lemma {:induction false} GainAdd(s: set<string>, x: string, relevance: map<string, real>, weight: real -> real)
    requires s <= relevance.Keys && x in relevance && x !in s
    ensures Gain(s + {x}, relevance, weight) == Gain(s, relevance, weight) + weight(relevance[x])
    decreases |s|
  {
    var y := Pick(s + {x});
    if y == x {
      assert s + {x} - {x} == s;
    } else {
      assert s + {x} - {y} == (s - {y}) + {x};
      GainAdd(s - {y}, x, relevance, weight);
      GainAdd(s - {y}, y, relevance, weight);
      assert (s - {y}) + {y} == s;
    }
  }

  predicate NonNegative(costs: map<string, int>) {
    forall x :: x in costs ==> 0 <= costs[x]
  }

  predicate Graded(relevance: map<string, real>) {
    forall x :: x in relevance ==> 0.0 <= relevance[x] <= 4.0
  }

  ghost predicate Rewards(weight: real -> real) {
    forall r :: 0.0 <= r <= 4.0 ==> 0.0 <= weight(r)
  }

  lemma {:induction false} CostGrows(s: set<string>, t: set<string>, costs: map<string, int>)
    requires s <= t <= costs.Keys && NonNegative(costs)
    ensures Cost(s, costs) <= Cost(t, costs)
    decreases |t|
  {
    if s != t {
      assert t == s + (t - s);
      var x := Pick(t - s);
      CostGrows(s, t - {x}, costs);
      CostAdd(t - {x}, x, costs);
      assert (t - {x}) + {x} == t;
    }
  }

  lemma {:induction false} GainGrows(s: set<string>, t: set<string>, relevance: map<string, real>, weight: real -> real)
    requires s <= t <= relevance.Keys && Graded(relevance) && Rewards(weight)
    ensures Gain(s, relevance, weight) <= Gain(t, relevance, weight)
    decreases |t|
  {
    if s != t {
      assert t == s + (t - s);
      var x := Pick(t - s);
      GainGrows(s, t - {x}, relevance, weight);
      GainAdd(t - {x}, x, relevance, weight);
      assert (t - {x}) + {x} == t;
    }
  }

  lemma {:induction false} FreeCosts(s: set<string>, costs: map<string, int>)
    requires s <= costs.Keys && forall x :: x in s ==> costs[x] == 0
    ensures Cost(s, costs) == 0
    decreases |s|
  {
    if s != {} {
      FreeCosts(s - {Pick(s)}, costs);
    }
  }

  // ----- Admissions and their optimum -----

  // Everything required is admitted, within the budget.
  ghost predicate Feasible(s: set<string>, ids: set<string>, required: set<string>, costs: map<string, int>, budget: int)
    requires ids <= costs.Keys
  {
    required <= s <= ids && Cost(s, costs) <= budget
  }

  // The gain is attained by a feasible admission, and no feasible admission gains more.
  ghost predicate IsOptimum(gain: real, ids: set<string>, required: set<string>, costs: map<string, int>, budget: int,
                            relevance: map<string, real>, weight: real -> real)
    requires ids <= costs.Keys && ids <= relevance.Keys
  {
    && (exists s :: Feasible(s, ids, required, costs, budget) && gain == Gain(s, relevance, weight))
    && (forall s :: Feasible(s, ids, required, costs, budget) ==> Gain(s, relevance, weight) <= gain)
  }

  // ----- Enumerating admissions -----

  // itertools.product((False, True), repeat=n).
  function Choices(n: nat): (cs: seq<seq<bool>>)
    ensures forall i :: 0 <= i < |cs| ==> |cs[i]| == n
  {
    if n == 0 then [[]] else Prefixed(false, Choices(n - 1)) + Prefixed(true, Choices(n - 1))
  }

  function Prefixed(b: bool, cs: seq<seq<bool>>): (r: seq<seq<bool>>)
    ensures |r| == |cs| && forall i :: 0 <= i < |cs| ==> r[i] == [b] + cs[i]
  {
    seq(|cs|, i requires 0 <= i < |cs| => [b] + cs[i])
  }

  lemma {:induction false} PrefixedHas(b: bool, cs: seq<seq<bool>>, c: seq<bool>)
    requires c in cs
    ensures [b] + c in Prefixed(b, cs)
  {
    var i :| 0 <= i < |cs| && cs[i] == c;
    assert Prefixed(b, cs)[i] == [b] + c;
  }

  lemma {:induction false} ChoicesComplete(bits: seq<bool>)
    ensures bits in Choices(|bits|)
  {
    if bits != [] {
      var rest, cs := bits[1..], Choices(|bits| - 1);
      ChoicesComplete(rest);
      PrefixedHas(bits[0], cs, rest);
      var bit := bits[0];
      assert bits == [bit] + rest;
      hide Prefixed;
      assert Choices(|bits|) == Prefixed(false, cs) + Prefixed(true, cs);
      hide Choices;
      assert bits in Prefixed(bit, cs);
    }
  }

  function Admitted(ids: seq<string>, bits: seq<bool>): set<string>
    requires |bits| == |ids|
  {
    set i | 0 <= i < |ids| && bits[i] :: ids[i]
  }

  lemma {:induction false} EveryAdmission(ids: seq<string>, s: set<string>) returns (bits: seq<bool>)
    requires s <= Elements(ids) && Distinct(ids)
    ensures bits in Choices(|ids|) && |bits| == |ids| && Admitted(ids, bits) == s
  {
    bits := seq(|ids|, i requires 0 <= i < |ids| => ids[i] in s);
    ChoicesComplete(bits);
    forall x | x in s ensures x in Admitted(ids, bits) {
      var i :| 0 <= i < |ids| && ids[i] == x;
      assert bits[i];
    }
  }

  // Adds up the admitted costs and gains in the order of the ids.
  method AddUp(ids: seq<string>, admitted: set<string>, costs: map<string, int>, relevance: map<string, real>, weight: real -> real)
    returns (cost: int, gain: real)
    requires Distinct(ids) && admitted <= Elements(ids) <= costs.Keys && Elements(ids) <= relevance.Keys
    ensures cost == Cost(admitted, costs) && gain == Gain(admitted, relevance, weight)
  {
    cost, gain := 0, 0.0;
    ghost var done: set<string> := {};
    for i := 0 to |ids|
      invariant done == set x | x in admitted && x in ids[..i]
      invariant done <= Elements(ids)
      invariant cost == Cost(done, costs) && gain == Gain(done, relevance, weight)
    {
      assert ids[..i + 1] == ids[..i] + [ids[i]];
      if ids[i] in admitted {
        assert ids[i] !in done;
        CostAdd(done, ids[i], costs);
        GainAdd(done, ids[i], relevance, weight);
        cost, gain := cost + costs[ids[i]], gain + weight(relevance[ids[i]]);
        done := done + {ids[i]};
      }
    }
    assert ids[..|ids|] == ids;
    assert done == admitted;
  }

  // The gains of all feasible admissions.
  method FeasibleGains(ids: seq<string>, required: set<string>, costs: map<string, int>, budget: int,
                       relevance: map<string, real>, weight: real -> real) returns (gains: seq<real>)
    requires Distinct(ids) && Elements(ids) <= costs.Keys && Elements(ids) <= relevance.Keys
    ensures forall g :: g in gains ==>
      exists s :: Feasible(s, Elements(ids), required, costs, budget) && g == Gain(s, relevance, weight)
    ensures forall s :: Feasible(s, Elements(ids), required, costs, budget) ==> Gain(s, relevance, weight) in gains
  {
    hide Gain, Cost, Choices;
    gains := [];
    var choices := Choices(|ids|);
    for i := 0 to |choices|
      invariant forall g :: g in gains ==>
        exists s :: Feasible(s, Elements(ids), required, costs, budget) && g == Gain(s, relevance, weight)
      invariant forall j :: 0 <= j < i && Feasible(Admitted(ids, choices[j]), Elements(ids), required, costs, budget) ==>
        Gain(Admitted(ids, choices[j]), relevance, weight) in gains
    {
      var admitted := Admitted(ids, choices[i]);
      var cost, gain := AddUp(ids, admitted, costs, relevance, weight);
      if required <= admitted && cost <= budget {
        assert Feasible(admitted, Elements(ids), required, costs, budget);
        gains := gains + [gain];
      }
    }
    forall s | Feasible(s, Elements(ids), required, costs, budget) ensures Gain(s, relevance, weight) in gains {
      var bits := EveryAdmission(ids, s);
      var j :| 0 <= j < |choices| && choices[j] == bits;
    }
  }

  method Largest(xs: seq<real>) returns (m: real)
    requires xs != []
    ensures m in xs && forall x :: x in xs ==> x <= m
  {
    m := xs[0];
    for i := 1 to |xs|
      invariant m in xs && forall j :: 0 <= j < i ==> xs[j] <= m
    {
      if m < xs[i] { m := xs[i]; }
    }
  }

  // ----- Cases -----

  function IdsOf(c: Case): (ids: seq<string>)
    ensures |ids| == |c.candidates| && forall i :: 0 <= i < |ids| ==> ids[i] == c.candidates[i].id
  {
    seq(|c.candidates|, i requires 0 <= i < |c.candidates| => c.candidates[i].id)
  }

  // What admitting a candidate costs: nothing for a protected one, unless nothing is withheld.
  function CostOf(c: Case, x: Candidate): int {
    if !c.recommendations && x.shielded then 0 else x.size
  }

  ghost predicate Prices(c: Case, costs: map<string, int>) {
    && (forall x :: x in costs <==> x in Elements(IdsOf(c)))
    && forall x :: x in c.candidates ==> x.id in costs && costs[x.id] == CostOf(c, x)
  }

  function Shielded(c: Case): set<string> {
    set x | x in c.candidates && x.shielded :: x.id
  }

  function Useful(relevance: map<string, real>): set<string> {
    set x | x in relevance && relevance[x] > 0.0
  }

  function Cutoff(relevance: map<string, real>): int {
    if |Useful(relevance)| < 1 then 1 else |Useful(relevance)|
  }

  ghost predicate IsLargestCost(costs: map<string, int>, m: int) {
    (exists x :: x in costs && costs[x] == m) && forall x :: x in costs ==> costs[x] <= m
  }

  function Min(a: int, b: int): (m: int)
    ensures m <= a && m <= b && (m == a || m == b)
  {
    if a < b then a else b
  }

  // ----- The corrector -----

  // What the corrector writes; everything else stays.
  ghost predicate IsCorrection(c: Case, c': Case, weight: real -> real)
    requires c.expected.relevance.Keys >= Elements(IdsOf(c))
  {
    var e, e' := c.expected, c'.expected;
    && c'.candidates == c.candidates && c'.recommendations == c.recommendations
    && e'.relevance == e.relevance && e'.required == e.required && e'.allIds == e.allIds
    && Prices(c, e'.costs) && c'.budgetUnits == e'.budget
    && if c.recommendations then
         && e'.budget == Cost(e'.costs.Keys, e'.costs)
         && e'.gain == Gain(e.relevance.Keys, e.relevance, weight) && e'.k == Cutoff(e.relevance)
       else
         && e'.k == e.k
         && (exists m :: IsLargestCost(e'.costs, m) && e'.budget == Min(m, Cost(e'.costs.Keys, e'.costs) - 1))
         && Cost(e'.costs.Keys, e'.costs) >= 2
         && Elements(IdsOf(c)) <= e'.costs.Keys
         && IsOptimum(e'.gain, Elements(IdsOf(c)), e.required, e'.costs, e'.budget, e.relevance, weight)
  }

  method PriceAll(c: Case) returns (costs: map<string, int>)
    requires Distinct(IdsOf(c))
    ensures Prices(c, costs)
  {
    costs := map[];
    for i := 0 to |c.candidates|
      invariant forall x :: x in costs <==> x in Elements(IdsOf(c)[..i])
      invariant forall j :: 0 <= j < i ==> c.candidates[j].id in costs && costs[c.candidates[j].id] == CostOf(c, c.candidates[j])
    {
      assert IdsOf(c)[i] == c.candidates[i].id;
      assert IdsOf(c)[..i + 1] == IdsOf(c)[..i] + [c.candidates[i].id];
      forall j | 0 <= j < i ensures c.candidates[j].id != c.candidates[i].id {
        assert IdsOf(c)[j] != IdsOf(c)[i];
      }
      costs := costs[c.candidates[i].id := CostOf(c, c.candidates[i])];
    }
    assert IdsOf(c)[..|c.candidates|] == IdsOf(c);
  }

  method LargestCost(ids: seq<string>, costs: map<string, int>) returns (m: int)
    requires ids != [] && forall x :: x in costs <==> x in ids
    ensures IsLargestCost(costs, m)
  {
    assert ids[0] in ids;
    m := costs[ids[0]];
    for i := 1 to |ids|
      invariant exists x :: x in costs && costs[x] == m
      invariant forall j :: 0 <= j < i ==> ids[j] in costs && costs[ids[j]] <= m
    {
      assert ids[i] in ids;
      if m < costs[ids[i]] { m := costs[ids[i]]; }
    }
  }

  // A feasible admission exists, under the budget the corrector chooses.
  ghost predicate Correctable(c: Case)
  {
    c.recommendations || exists costs :: Prices(c, costs) && Pressed(c, costs)
  }

  // Some cost can be withheld, and the required ids fit the budget.
  ghost predicate Pressed(c: Case, costs: map<string, int>) {
    && Cost(costs.Keys, costs) >= 2
    && exists m :: IsLargestCost(costs, m) && Affordable(c, costs, Min(m, Cost(costs.Keys, costs) - 1))
  }

  ghost predicate Affordable(c: Case, costs: map<string, int>, budget: int) {
    exists s :: Admissible(s, c, costs, budget)
  }

  ghost predicate Admissible(s: set<string>, c: Case, costs: map<string, int>, budget: int) {
    Elements(IdsOf(c)) <= costs.Keys && Feasible(s, Elements(IdsOf(c)), c.expected.required, costs, budget)
  }

  lemma {:induction false} PricesOnce(c: Case, a: map<string, int>, b: map<string, int>)
    requires Prices(c, a) && Prices(c, b)
    ensures a == b
  {
    forall x | x in a ensures x in b && a[x] == b[x] {
      var i :| 0 <= i < |IdsOf(c)| && IdsOf(c)[i] == x;
      assert c.candidates[i] in c.candidates;
    }
    assert a.Keys == b.Keys;
  }

  lemma {:induction false} OneLargestCost(costs: map<string, int>, m: int, n: int)
    requires IsLargestCost(costs, m) && IsLargestCost(costs, n)
    ensures m == n
  {
  }

  // Given the prices and the largest of them, the case can be corrected exactly under the one budget
  // they leave.
  lemma {:induction false} CorrectableWith(c: Case, costs: map<string, int>, m: int)
    requires !c.recommendations && Prices(c, costs) && IsLargestCost(costs, m)
    ensures Correctable(c) <==>
      Cost(costs.Keys, costs) >= 2 && Affordable(c, costs, Min(m, Cost(costs.Keys, costs) - 1))
  {
    hide Prices, IsLargestCost, Affordable, Cost;
    forall other | Prices(c, other) ensures other == costs {
      PricesOnce(c, other, costs);
    }
    forall n | IsLargestCost(costs, n) ensures n == m {
      OneLargestCost(costs, m, n);
    }
  }

  lemma {:induction false} TooCheap(c: Case, costs: map<string, int>)
    requires !c.recommendations && Prices(c, costs) && Cost(costs.Keys, costs) < 2
    ensures !Correctable(c)
  {
    hide Prices, Cost;
    forall other | Prices(c, other) ensures other == costs {
      PricesOnce(c, other, costs);
    }
  }

  // The greatest gain of the feasible admissions, if there are any.
  method Optimum(c: Case, costs: map<string, int>, budget: int, weight: real -> real) returns (r: Result<real>)
    requires Distinct(IdsOf(c)) && costs.Keys == Elements(IdsOf(c)) <= c.expected.relevance.Keys
    ensures r.Success? <==> Affordable(c, costs, budget)
    ensures r.Success? ==>
      IsOptimum(r.value, Elements(IdsOf(c)), c.expected.required, costs, budget, c.expected.relevance, weight)
  {
    hide Gain, Cost, Distinct, Elements, IdsOf;
    var gains := FeasibleGains(IdsOf(c), c.expected.required, costs, budget, c.expected.relevance, weight);
    if gains == [] {
      return Failure("max() of an empty sequence");
    }
    assert gains[0] in gains;
    ghost var s :| Feasible(s, Elements(IdsOf(c)), c.expected.required, costs, budget)
                   && gains[0] == Gain(s, c.expected.relevance, weight);
    assert Admissible(s, c, costs, budget);
    var gain := Largest(gains);
    return Success(gain);
  }

  lemma {:induction false} PricedIds(c: Case, costs: map<string, int>)
    requires Prices(c, costs)
    ensures costs.Keys == Elements(IdsOf(c)) && forall x :: x in costs <==> x in IdsOf(c)
  {
  }

  lemma {:induction false} NoIdsCostNothing(costs: map<string, int>)
    requires costs.Keys == {}
    ensures Cost(costs.Keys, costs) == 0
  {
  }

  // The annotations of one ranking case that performs admission.
  method CorrectAdmission(c: Case, weight: real -> real) returns (r: Result<Case>)
    requires !c.recommendations && Distinct(IdsOf(c)) && Elements(IdsOf(c)) <= c.expected.relevance.Keys
    ensures r.Success? ==> IsCorrection(c, r.value, weight)
    ensures r.Success? <==> Correctable(c)
  {
    hide Prices, IsLargestCost, Cost, Gain, Distinct, IdsOf, Correctable, Affordable, IsOptimum;
    var ids, e := IdsOf(c), c.expected;
    var costs := PriceAll(c);
    PricedIds(c, costs);
    var total, _ := AddUp(ids, Elements(ids), costs, e.relevance, weight);
    if total < 2 {
      TooCheap(c, costs);
      return Failure("insufficient optional candidates for admission pressure");
    }
    if ids == [] {
      assert costs.Keys == {};
      NoIdsCostNothing(costs);
    }
    var m := LargestCost(ids, costs);
    CorrectableWith(c, costs, m);
    var budget := Min(m, total - 1);
    var gain := Optimum(c, costs, budget, weight);
    if gain.Failure? {
      return Failure(gain.error);
    }
    return Success(Case(false, c.candidates, budget, e.(costs := costs, budget := budget, gain := gain.value)));
  }

  // A recommendations case admits everything.
  method CorrectRecommendations(c: Case, weight: real -> real) returns (c': Case)
    requires c.recommendations && Distinct(IdsOf(c)) && Elements(IdsOf(c)) == c.expected.relevance.Keys
    ensures IsCorrection(c, c', weight)
  {
    var ids, e := IdsOf(c), c.expected;
    var costs := PriceAll(c);
    assert costs.Keys == Elements(ids);
    var total, gain := AddUp(ids, Elements(ids), costs, e.relevance, weight);
    c' := Case(true, c.candidates, total, e.(costs := costs, budget := total, gain := gain, k := Cutoff(e.relevance)));
  }

  // ----- The validator -----

  // The ids, grades, costs, cutoff and required ids of a graded ranking case are in order.
  ghost predicate Annotated(c: Case) {
    var e := c.expected;
    var all := Elements(e.allIds);
    && |all| == |e.allIds| && all == Elements(IdsOf(c))
    && e.relevance.Keys == all && e.costs.Keys == all
    && (forall x :: x in e.relevance ==> 0.0 <= e.relevance[x] <= 4.0) && (forall x :: x in e.costs ==> e.costs[x] >= 0)
    && 0 <= e.budget && 1 <= e.k <= |e.allIds|
    && e.required == (set x | x in c.candidates && x.shielded :: x.id)
    && Costed(c)
  }

  // Recommendations charge every size, admission only what is not protected.
  ghost predicate Costed(c: Case) {
    forall x :: x in c.candidates ==>
      x.id in c.expected.costs
      && c.expected.costs[x.id] == if c.recommendations then x.size else if x.shielded then 0 else x.size
  }

  // Every check of load on a graded ranking case.
  ghost predicate ValidRanking(c: Case, weight: real -> real) {
    var e := c.expected;
    var all := Elements(e.allIds);
    && Annotated(c)
    && e.budget == c.budgetUnits
    && (if c.recommendations then
          var useful := |set x | x in e.relevance && e.relevance[x] > 0.0|;
          e.budget == Cost(all, e.costs) && e.k == (if useful > 0 then useful else 1)
        else e.budget < Cost(all, e.costs))
    && IsOptimum(e.gain, all, e.required, e.costs, e.budget, e.relevance, weight)
  }

  method CheckAnnotations(c: Case) returns (ok: bool)
    ensures ok <==> Annotated(c)
  {
    var e := c.expected;
    var all := Elements(e.allIds);
    DistinctBySize(e.allIds);
    hide Distinct, Elements;
    if !Distinct(e.allIds) || all != Elements(IdsOf(c)) || e.relevance.Keys != all || e.costs.Keys != all {
      return false;
    }
    if !Graded(e.relevance) || !NonNegative(e.costs) || e.budget < 0 || !(1 <= e.k <= |e.allIds|) || e.required != Shielded(c) {
      return false;
    }
    return forall x :: x in c.candidates ==> x.id in e.costs && e.costs[x.id] == CostOf(c, x);
  }

  lemma {:induction false} AnnotatedKeys(c: Case)
    requires Annotated(c)
    ensures var e, all := c.expected, Elements(c.expected.allIds);
            Distinct(e.allIds) && e.relevance.Keys == all && e.costs.Keys == all
  {
    DistinctBySize(c.expected.allIds);
    hide Distinct, Elements;
  }

  method Validate(c: Case, weight: real -> real) returns (ok: bool)
    ensures ok <==> ValidRanking(c, weight)
  {
    hide Cost, Gain, Feasible;
    var e := c.expected;
    var all := Elements(e.allIds);
    var annotated := CheckAnnotations(c);
    if !annotated {
      return false;
    }
    AnnotatedKeys(c);
    hide Annotated, Distinct, Elements;
    var total, _ := AddUp(e.allIds, all, e.costs, e.relevance, weight);
    if e.budget != c.budgetUnits
       || (if c.recommendations then e.budget != total || e.k != Cutoff(e.relevance) else total <= e.budget)
    {
      return false;
    }
    var gains := FeasibleGains(e.allIds, e.required, e.costs, e.budget, e.relevance, weight);
    if gains == [] {
      return false;
    }
    var best := Largest(gains);
    return best == e.gain;
  }

  // ----- The corrector satisfies the validator -----

  // A case as authored: consistent ids, grades in range, nonnegative sizes, the protected
  // candidates required, a cutoff in range.
  ghost predicate WellFormed(c: Case) {
    var e := c.expected;
    && Distinct(IdsOf(c)) && Distinct(e.allIds) && Elements(e.allIds) == Elements(IdsOf(c))
    && e.relevance.Keys == Elements(IdsOf(c)) && Graded(e.relevance)
    && (forall x :: x in c.candidates ==> 0 <= x.size)
    && e.required == Shielded(c) && 1 <= e.k <= |e.allIds|
  }

  lemma {:induction false} PricesAreNonNegative(c: Case, costs: map<string, int>)
    requires Prices(c, costs) && forall x :: x in c.candidates ==> 0 <= x.size
    ensures NonNegative(costs) && costs.Keys == Elements(IdsOf(c))
  {
    forall x | x in costs ensures 0 <= costs[x] {
      var i :| 0 <= i < |IdsOf(c)| && IdsOf(c)[i] == x;
      assert c.candidates[i] in c.candidates;
    }
  }

  lemma {:induction false} UsefulWithin(c: Case)
    requires WellFormed(c)
    ensures 1 <= Cutoff(c.expected.relevance) <= |c.expected.allIds|
  {
    var useful, ids := Useful(c.expected.relevance), c.expected.allIds;
    assert useful <= Elements(ids);
    DistinctBySize(ids);
    SubsetSize(useful, Elements(ids));
  }

  lemma {:induction false} ShieldedIsFree(c: Case, costs: map<string, int>)
    requires !c.recommendations && Prices(c, costs)
    ensures Shielded(c) <= costs.Keys && Cost(Shielded(c), costs) == 0
    ensures Shielded(c) <= Elements(IdsOf(c))
  {
    forall x | x in Shielded(c) ensures x in costs && x in Elements(IdsOf(c)) {
      var y :| y in c.candidates && y.shielded && y.id == x;
    }
    assert Shielded(c) <= costs.Keys;
    forall x | x in Shielded(c) ensures costs[x] == 0 {
      var y :| y in c.candidates && y.shielded && y.id == x;
    }
    FreeCosts(Shielded(c), costs);
  }

  lemma {:induction false} LargestExists(s: set<string>, costs: map<string, int>) returns (x: string)
    requires s != {} && s <= costs.Keys
    ensures x in s && forall y :: y in s ==> costs[y] <= costs[x]
    decreases |s|
  {
    var some := Pick(s);
    x := some;
    var rest := s - {some};
    if rest != {} {
      var best := LargestExists(rest, costs);
      x := if costs[best] < costs[some] then some else best;
    }
    assert forall y :: y in s ==> y == some || y in rest;
  }

  // A well-formed case is rejected exactly when its optional sizes leave no room for pressure.
  lemma {:induction false} RejectsWithoutPressure(c: Case, costs: map<string, int>)
    requires WellFormed(c) && !c.recommendations && Prices(c, costs)
    ensures Correctable(c) <==> Cost(costs.Keys, costs) >= 2
  {
    forall other | Prices(c, other) ensures other == costs {
      PricesOnce(c, other, costs);
    }
    if Cost(costs.Keys, costs) >= 2 {
      PricesAreNonNegative(c, costs);
      ShieldedIsFree(c, costs);
      var x := LargestExists(costs.Keys, costs);
      assert IsLargestCost(costs, costs[x]);
      assert Admissible(Shielded(c), c, costs, Min(costs[x], Cost(costs.Keys, costs) - 1));
      assert Pressed(c, costs);
    }
  }

  // Where everything is admitted, the whole gain is the optimum.
  lemma {:induction false} EverythingIsOptimum(all: set<string>, required: set<string>, costs: map<string, int>,
                                               relevance: map<string, real>, weight: real -> real)
    requires required <= all && all == costs.Keys && all == relevance.Keys
    requires Graded(relevance) && Rewards(weight)
    ensures IsOptimum(Gain(all, relevance, weight), all, required, costs, Cost(all, costs), relevance, weight)
  {
    assert Feasible(all, all, required, costs, Cost(all, costs));
    forall s | Feasible(s, all, required, costs, Cost(all, costs))
      ensures Gain(s, relevance, weight) <= Gain(all, relevance, weight)
    {
      GainGrows(s, all, relevance, weight);
    }
  }

  lemma {:induction false} ShieldedAreIds(c: Case)
    ensures Shielded(c) <= Elements(IdsOf(c))
  {
    forall x | x in Shielded(c) ensures x in Elements(IdsOf(c)) {
      var y :| y in c.candidates && y.shielded && y.id == x;
      var i :| 0 <= i < |c.candidates| && c.candidates[i] == y;
      assert IdsOf(c)[i] == x;
    }
  }

  lemma {:induction false} BudgetWithin(costs: map<string, int>, budget: int)
    requires NonNegative(costs) && Cost(costs.Keys, costs) >= 2
    requires exists m :: IsLargestCost(costs, m) && budget == Min(m, Cost(costs.Keys, costs) - 1)
    ensures 0 <= budget < Cost(costs.Keys, costs)
  {
  }

  // What a correction leaves alone.
  lemma {:induction false} CorrectionKeeps(c: Case, c': Case, weight: real -> real)
    requires c.expected.relevance.Keys >= Elements(IdsOf(c)) && IsCorrection(c, c', weight)
    ensures var e, e' := c.expected, c'.expected;
            && c'.candidates == c.candidates && c'.recommendations == c.recommendations && IdsOf(c') == IdsOf(c)
            && e'.relevance == e.relevance && e'.required == e.required && e'.allIds == e.allIds && Prices(c, e'.costs)
  {
    hide Cost, Gain, IsOptimum, Elements, Prices, Cutoff;
  }

  lemma {:induction false} PricesAreCosts(c: Case, c': Case)
    requires c'.candidates == c.candidates && c'.recommendations == c.recommendations && Prices(c, c'.expected.costs)
    ensures Costed(c')
  {
    hide Elements, IdsOf;
  }

  lemma {:induction false} CorrectionIsAnnotated(c: Case, c': Case, weight: real -> real)
    requires WellFormed(c) && IsCorrection(c, c', weight) && c'.expected.budget >= 0 && 1 <= c'.expected.k <= |c'.expected.allIds|
    ensures Annotated(c')
  {
    var e, e' := c.expected, c'.expected;
    hide IsCorrection, Prices, Costed;
    DistinctBySize(e.allIds);
    CorrectionKeeps(c, c', weight);
    PricesAreCosts(c, c');
    PricesAreNonNegative(c, e'.costs);
    assert e'.required == set x | x in c'.candidates && x.shielded :: x.id;
    hide Elements, Distinct, Shielded, IdsOf;
  }

  // Every well-formed case that is corrected passes validation.
  lemma {:induction false} CorrectionIsValid(c: Case, c': Case, weight: real -> real)
    requires WellFormed(c) && Rewards(weight) && IsCorrection(c, c', weight)
    ensures ValidRanking(c', weight)
  {
    var e, e' := c.expected, c'.expected;
    var all := Elements(IdsOf(c));
    assert Useful(e.relevance) == set x | x in e.relevance && e.relevance[x] > 0.0;
    hide Cost, Gain, Useful, IsOptimum, Rewards, Elements, Shielded, NonNegative, Annotated;
    PricesAreNonNegative(c, e'.costs);
    ShieldedAreIds(c);
    if c.recommendations {
      UsefulWithin(c);
      CostGrows({}, all, e'.costs);
      NothingCosts(e'.costs);
      EverythingIsOptimum(all, e.required, e'.costs, e.relevance, weight);
    } else {
      BudgetWithin(e'.costs, e'.budget);
    }
    CorrectionIsAnnotated(c, c', weight);
  }

  lemma {:induction false} SameShielded(c: Case, c': Case)
    requires c'.candidates == c.candidates
    ensures Shielded(c') == Shielded(c)
  {
  }

  lemma {:induction false} NothingCosts(costs: map<string, int>)
    ensures Cost({}, costs) == 0
  {
  }

  lemma {:induction false} OptimumOnce(a: real, b: real, ids: set<string>, required: set<string>, costs: map<string, int>, budget: int,
                                       relevance: map<string, real>, weight: real -> real)
    requires ids <= costs.Keys && ids <= relevance.Keys
    requires IsOptimum(a, ids, required, costs, budget, relevance, weight)
    requires IsOptimum(b, ids, required, costs, budget, relevance, weight)
    ensures a == b
  {
  }

  // Correcting a corrected case changes nothing.
  lemma {:induction false} CorrectionIsIdempotent(c: Case, c': Case, c'': Case, weight: real -> real)
    requires c.expected.relevance.Keys >= Elements(IdsOf(c))
    requires IsCorrection(c, c', weight) && c'.expected.relevance.Keys >= Elements(IdsOf(c')) && IsCorrection(c', c'', weight)
    ensures c'' == c'
  {
    hide Cost, Gain, IsOptimum, Elements;
    assert IdsOf(c') == IdsOf(c);
    assert Prices(c, c''.expected.costs);
    PricesOnce(c, c'.expected.costs, c''.expected.costs);
    if !c.recommendations {
      var m :| IsLargestCost(c'.expected.costs, m) && c'.expected.budget == Min(m, Cost(c'.expected.costs.Keys, c'.expected.costs) - 1);
      var n :| IsLargestCost(c''.expected.costs, n) && c''.expected.budget == Min(n, Cost(c''.expected.costs.Keys, c''.expected.costs) - 1);
      assert m == n;
      OptimumOnce(c'.expected.gain, c''.expected.gain, Elements(IdsOf(c)), c.expected.required, c'.expected.costs,
                  c'.expected.budget, c.expected.relevance, weight);
    }
  }

  // ----- The dataset -----

  // A case whose expectation is not a ranking is left alone.
  datatype Entry = Other(text: string) | Ranking(ranking: Case)

  predicate Typed(e: Entry) {
    e.Ranking? ==> Distinct(IdsOf(e.ranking)) && Elements(IdsOf(e.ranking)) == e.ranking.expected.relevance.Keys
  }

  ghost predicate Corrected(e: Entry, e': Entry, weight: real -> real)
    requires Typed(e)
  {
    match e
    case Other(_) => e' == e
    case Ranking(c) => e'.Ranking? && IsCorrection(c, e'.ranking, weight)
  }

  ghost predicate Accepts(e: Entry) {
    e.Ranking? ==> Correctable(e.ranking)
  }

  method CorrectEntry(e: Entry, weight: real -> real) returns (r: Result<Entry>)
    requires Typed(e)
    ensures r.Success? <==> Accepts(e)
    ensures r.Success? ==> Corrected(e, r.value, weight)
  {
    if e.Other? {
      return Success(e);
    }
    var c := e.ranking;
    if c.recommendations {
      c := CorrectRecommendations(c, weight);
    } else {
      var corrected := CorrectAdmission(c, weight);
      if corrected.Failure? {
        return Failure(corrected.error);
      }
      c := corrected.value;
    }
    return Success(Ranking(c));
  }

  class Dataset {
    var development: bool
    var entries: seq<Entry>

    constructor (development: bool, entries: seq<Entry>)
      ensures this.development == development && this.entries == entries
    {
      this.development, this.entries := development, entries;
    }

    // Corrects every ranking case in place; a rejected case leaves it and all later ones untouched.
    method Correct(weight: real -> real) returns (r: Result<()>)
      requires forall e :: e in entries ==> Typed(e)
      modifies this`entries
      ensures |entries| == |old(entries)|
      ensures r.Success? <==> development && forall i :: 0 <= i < |entries| ==> Accepts(old(entries)[i])
      ensures r.Success? ==> forall i :: 0 <= i < |entries| ==> Corrected(old(entries)[i], entries[i], weight)
      ensures !development ==> entries == old(entries)
      ensures r.Failure? && development ==>
        exists n :: 0 <= n < |entries| && !Accepts(old(entries)[n]) && entries[n..] == old(entries)[n..]
                    && forall i :: 0 <= i < n ==> Corrected(old(entries)[i], entries[i], weight)
    {
      if !development {
        return Failure("only development v3 may be corrected");
      }
      hide Corrected, Accepts, Typed;
      var n := 0;
      while n < |entries|
        invariant 0 <= n <= |entries| == |old(entries)|
        invariant forall i :: n <= i < |entries| ==> entries[i] == old(entries)[i]
        invariant forall i :: 0 <= i < n ==> Corrected(old(entries)[i], entries[i], weight) && Accepts(old(entries)[i])
      {
        assert entries[n] in old(entries);
        var corrected := CorrectEntry(entries[n], weight);
        if corrected.Failure? {
          assert entries[n..] == old(entries)[n..];
          return Failure(corrected.error);
        }
        entries := entries[n := corrected.value];
        n := n + 1;
      }
      return Success(());
    }
  }
}
