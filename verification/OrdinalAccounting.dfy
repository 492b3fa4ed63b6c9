// Operation-ordinal accounting of a normal turn (scripts/judgement-normal-live.py, passive_facts).
//
// A version-2 summary keeps a few operation ids, compresses the passive operations into buckets
// of (count, first, last), and counts what it dropped. PassiveFacts accepts a summary exactly
// when the ordinals [0, begun) can really be divided that way.
module OrdinalAccounting {
  import opened Collections
  import opened Wrappers
  import opened IntervalSchedule

  const FEATURES: set<string> := {
    "tool_result_triage", "context_reranking", "progress_monitoring",
    "recommendations", "session_categorization", "eval_categorization"
  }
  const WORD_LIMIT: int := 0x1_0000_0000_0000_0000

  datatype Aggregate = Aggregate(feature: string, trigger: string, application: string, count: int, first: int, last: int)

  datatype Accounting = Accounting(begun: int, omittedOperations: int)

  datatype Observation = Observation(version: int, aggregates: seq<Aggregate>, accounting: Option<Accounting>,
                                     operationIds: seq<int>, omitted: int)

  predicate IsWord(v: int) {
    0 <= v < WORD_LIMIT
  }

  predicate Qualified(a: Aggregate) {
    a.feature in FEATURES && a.trigger in {"disabled", "not_applicable"} && a.application == "baseline_retained"
  }

  predicate SameBucket(a: Aggregate, b: Aggregate) {
    a.feature == b.feature && a.trigger == b.trigger
  }

  predicate DistinctBuckets(aggregates: seq<Aggregate>) {
    forall i, j :: 0 <= i < j < |aggregates| ==> !SameBucket(aggregates[i], aggregates[j])
  }

  // The caps, qualifiers and bucket keys of a version-2 summary: everything but the ordinals.
  predicate WithinCaps(o: Observation) {
    && o.accounting.Some?
    && 0 <= o.accounting.value.begun <= 18446744073709551615
    && 0 <= o.accounting.value.omittedOperations <= 18446744073709551615
    && o.accounting.value.omittedOperations <= o.omitted
    && |o.aggregates| <= 12 && |o.operationIds| <= 64
    && (forall a :: a in o.aggregates ==> Passive(a))
    && forall i, j :: 0 <= i < j < |o.aggregates| ==>
         o.aggregates[i].feature != o.aggregates[j].feature || o.aggregates[i].trigger != o.aggregates[j].trigger
  }

  // Operations of a known feature that kept the baseline, in 64-bit numbers.
  predicate Passive(a: Aggregate) {
    && (a.feature == "tool_result_triage" || a.feature == "context_reranking" || a.feature == "progress_monitoring"
        || a.feature == "recommendations" || a.feature == "session_categorization" || a.feature == "eval_categorization")
    && (a.trigger == "disabled" || a.trigger == "not_applicable")
    && a.application == "baseline_retained"
    && 0 <= a.count <= 18446744073709551615
    && 0 <= a.first <= 18446744073709551615
    && 0 <= a.last <= 18446744073709551615
  }

  lemma {:induction false} QualifiedIsPassive(a: Aggregate)
    ensures Qualified(a) && IsWord(a.count) && IsWord(a.first) && IsWord(a.last) <==> Passive(a)
  {
  }

  // Lists whose neighbours ascend ascend throughout.
  lemma {:induction false} NeighboursAscend(ids: seq<int>)
    ensures StrictlyIncreasing(ids) <==> forall i :: 0 < i < |ids| ==> ids[i - 1] < ids[i]
  {
    if ids != [] {
      var n := |ids| - 1;
      var init := ids[..n];
      NeighboursAscend(init);
      if forall i :: 0 < i < |ids| ==> ids[i - 1] < ids[i] {
        assert forall i :: 0 < i < n ==> init[i - 1] < init[i];
        forall i, j | 0 <= i < j < |ids| ensures ids[i] < ids[j] {
          if j == n && i < n - 1 {
            assert init[i] < init[n - 1];
          } else if j < n {
            assert init[i] < init[j];
          }
        }
      }
    }
  }

  // ----- What a summary claims -----

  // The interval [lo, hi].
  function Span(lo: int, hi: int): (s: set<int>)
    ensures forall x :: x in s <==> lo <= x <= hi
    ensures |s| == if lo <= hi then hi - lo + 1 else 0
    decreases hi - lo + 1
  {
    if lo > hi then {} else Span(lo, hi - 1) + {hi}
  }

  function Ordinals(begun: int): set<int> {
    Span(0, begun - 1)
  }

  predicate StrictlyIncreasing(ids: seq<int>) {
    forall i, j :: 0 <= i < j < |ids| ==> ids[i] < ids[j]
  }

  function UnionOf(parts: seq<set<int>>): set<int> {
    set k, x | 0 <= k < |parts| && x in parts[k] :: x
  }

  // The bucket really stands for these operations.
  ghost predicate Bucket(a: Aggregate, part: set<int>) {
    && |part| == a.count
    && a.first in part && a.last in part
    && forall x :: x in part ==> a.first <= x <= a.last
  }

  // [0, begun) is the retained ids, one disjoint bucket per aggregate, and the omitted rest.
  ghost predicate Division(ids: seq<int>, aggregates: seq<Aggregate>, accounting: Accounting, parts: seq<set<int>>) {
    var all := Ordinals(accounting.begun);
    && StrictlyIncreasing(ids) && Elements(ids) <= all
    && |parts| == |aggregates| && PairwiseDisjoint(parts)
    && (forall k :: 0 <= k < |parts| ==> Bucket(aggregates[k], parts[k]) && parts[k] <= all - Elements(ids))
    && |all - Elements(ids) - UnionOf(parts)| == accounting.omittedOperations
  }

  ghost predicate Realizable(o: Observation)
    requires o.accounting.Some?
  {
    exists parts :: Division(o.operationIds, o.aggregates, o.accounting.value, parts)
  }

  // ----- What the checker counts -----

  // How many entries of the list fall in [lo, hi].
  function CountIn(list: seq<int>, lo: int, hi: int): nat {
    if list == [] then 0
    else CountIn(list[..|list| - 1], lo, hi) + if lo <= list[|list| - 1] <= hi then 1 else 0
  }

  // The endpoint set of one aggregate, as a list.
  function Ends(a: Aggregate): seq<int> {
    if a.first == a.last then [a.first] else [a.first, a.last]
  }

  function Endpoints(aggregates: seq<Aggregate>): seq<int> {
    if aggregates == [] then []
    else Endpoints(aggregates[..|aggregates| - 1]) + Ends(aggregates[|aggregates| - 1])
  }

  function TotalCount(aggregates: seq<Aggregate>): int {
    if aggregates == [] then 0 else TotalCount(aggregates[..|aggregates| - 1]) + aggregates[|aggregates| - 1].count
  }

  // Ordinals an aggregate is known to place in [lo, hi].
  function Share(a: Aggregate, lo: int, hi: int): int {
    if lo <= a.first && a.last <= hi then a.count else CountIn(Ends(a), lo, hi)
  }

  function Shares(aggregates: seq<Aggregate>, lo: int, hi: int): int {
    if aggregates == [] then 0
    else Shares(aggregates[..|aggregates| - 1], lo, hi) + Share(aggregates[|aggregates| - 1], lo, hi)
  }

  predicate OrdinalsOk(a: Aggregate, accounting: Accounting) {
    0 < a.count <= a.last - a.first + 1 && a.first <= a.last < accounting.begun
  }

  predicate NoCollision(a: Aggregate, ids: seq<int>) {
    && a.first !in ids && a.last !in ids
    && (a.count != 1 || a.first == a.last)
    && a.count <= a.last - a.first + 1 - CountIn(ids, a.first, a.last)
  }

  predicate RoomBetween(ids: seq<int>, aggregates: seq<Aggregate>, lo: int, hi: int) {
    CountIn(ids, lo, hi) + Shares(aggregates, lo, hi) <= hi - lo + 1
  }

  // The endpoint loop: every interval between two endpoints has room for what it must hold.
  predicate Roomy(ids: seq<int>, aggregates: seq<Aggregate>) {
    forall lo, hi :: lo in Endpoints(aggregates) && hi in Endpoints(aggregates) && lo <= hi ==>
      RoomBetween(ids, aggregates, lo, hi)
  }

  predicate IdsOk(ids: seq<int>, begun: int) {
    (forall i :: 0 <= i < |ids| ==> 0 <= ids[i] < begun) && StrictlyIncreasing(ids)
  }

  // The ordinal part of the checker's verdict; the two per-aggregate count bounds are left out,
  // since the endpoint loop implies them.
  predicate Counted(ids: seq<int>, aggregates: seq<Aggregate>, accounting: Accounting) {
    && (forall k :: 0 <= k < |aggregates| ==>
          var a := aggregates[k];
          0 < a.count && 0 <= a.first <= a.last < accounting.begun
          && a.first !in ids && a.last !in ids && (a.count != 1 || a.first == a.last))
    && Distinct(Endpoints(aggregates))
    && Roomy(ids, aggregates)
    && IdsOk(ids, accounting.begun)
    && |ids| + accounting.omittedOperations + TotalCount(aggregates) == accounting.begun
  }

  // ----- Counting lemmas -----

  lemma {:induction false} CountInConcat(a: seq<int>, b: seq<int>, lo: int, hi: int)
    ensures CountIn(a + b, lo, hi) == CountIn(a, lo, hi) + CountIn(b, lo, hi)
  {
    if b == [] {
      assert a + b == a;
    } else {
      CountInConcat(a, b[..|b| - 1], lo, hi);
      assert (a + b)[..|a + b| - 1] == a + b[..|b| - 1];
    }
  }

  // On a list without duplicates, counting entries is counting elements.
  lemma {:induction false} CountInIsSize(list: seq<int>, lo: int, hi: int)
    requires Distinct(list)
    ensures CountIn(list, lo, hi) == |Within(Elements(list), lo, hi)|
  {
    if list == [] {
      assert Within(Elements(list), lo, hi) == {};
    } else {
      var n := |list| - 1;
      CountInIsSize(list[..n], lo, hi);
      assert list == list[..n] + [list[n]];
      assert Elements(list) == Elements(list[..n]) + {list[n]};
      assert list[n] !in list[..n];
      WithinAdd(Elements(list[..n]), list[n], lo, hi);
    }
  }

  lemma {:induction false} WithinAdd(s: set<int>, x: int, lo: int, hi: int)
    requires x !in s
    ensures |Within(s + {x}, lo, hi)| == |Within(s, lo, hi)| + if lo <= x <= hi then 1 else 0
  {
    if lo <= x <= hi {
      assert Within(s + {x}, lo, hi) == Within(s, lo, hi) + {x};
    } else {
      assert Within(s + {x}, lo, hi) == Within(s, lo, hi);
    }
  }

  lemma {:induction false} CountInAll(list: seq<int>, lo: int, hi: int)
    requires forall i :: 0 <= i < |list| ==> lo <= list[i] <= hi
    ensures CountIn(list, lo, hi) == |list|
  {
    if list != [] {
      CountInAll(list[..|list| - 1], lo, hi);
    }
  }

  // ----- Endpoints, shares and windows -----

  predicate Shaped(a: Aggregate) {
    0 < a.count && a.first <= a.last && |Ends(a)| <= a.count
  }

  // An aggregate without its endpoints: the free slots it still needs.
  function WindowOf(a: Aggregate): Window
    requires Shaped(a)
  {
    Window(a.first, a.last, a.count - |Ends(a)|)
  }

  function Windows(aggregates: seq<Aggregate>): (ws: seq<Window>)
    requires forall a :: a in aggregates ==> Shaped(a)
    ensures |ws| == |aggregates|
    ensures forall k :: 0 <= k < |ws| ==> ws[k] == WindowOf(aggregates[k])
  {
    if aggregates == [] then []
    else Windows(aggregates[..|aggregates| - 1]) + [WindowOf(aggregates[|aggregates| - 1])]
  }

  // One aggregate's share: its endpoints, and what it needs beyond them once it lies wholly inside.
  lemma {:induction false} ShareSplits(a: Aggregate, lo: int, hi: int)
    requires Shaped(a)
    ensures Share(a, lo, hi) == CountIn(Ends(a), lo, hi) + if Contains(WindowOf(a), lo, hi) then WindowOf(a).need else 0
  {
    if lo <= a.first && a.last <= hi {
      CountInAll(Ends(a), lo, hi);
    }
  }

  lemma {:induction false} SharesSplit(aggregates: seq<Aggregate>, lo: int, hi: int)
    requires forall a :: a in aggregates ==> Shaped(a)
    ensures Shares(aggregates, lo, hi) == CountIn(Endpoints(aggregates), lo, hi) + Load(Windows(aggregates), lo, hi)
  {
    hide CountIn, Share, Ends, WindowOf, Contains, Shaped;
    if aggregates != [] {
      var n := |aggregates| - 1;
      var init, a := aggregates[..n], aggregates[n];
      assert Shaped(a);
      SharesSplit(init, lo, hi);
      CountInConcat(Endpoints(init), Ends(a), lo, hi);
      ShareSplits(a, lo, hi);
      assert Windows(aggregates)[..n] == Windows(init) && Windows(aggregates)[n] == WindowOf(a);
    } else {
      NothingCounted(lo, hi);
    }
  }

  lemma {:induction false} NothingCounted(lo: int, hi: int)
    ensures CountIn([], lo, hi) == 0
  {
  }

  lemma {:induction false} SharesAtLeast(aggregates: seq<Aggregate>, k: nat, lo: int, hi: int)
    requires k < |aggregates| && forall a :: a in aggregates ==> 0 < a.count
    ensures 0 <= Share(aggregates[k], lo, hi) <= Shares(aggregates, lo, hi)
  {
    var n := |aggregates| - 1;
    if k < n {
      SharesAtLeast(aggregates[..n], k, lo, hi);
    } else if n > 0 {
      SharesAtLeast(aggregates[..n], 0, lo, hi);
    }
  }

  lemma {:induction false} EndpointOf(aggregates: seq<Aggregate>, x: int)
    ensures x in Endpoints(aggregates) <==> exists k :: 0 <= k < |aggregates| && x in Ends(aggregates[k])
  {
    if aggregates != [] {
      var n := |aggregates| - 1;
      EndpointOf(aggregates[..n], x);
      assert forall k :: 0 <= k < n ==> aggregates[..n][k] == aggregates[k];
    }
  }

  lemma {:induction false} EndpointsOf(aggregates: seq<Aggregate>, k: nat)
    requires k < |aggregates|
    ensures aggregates[k].first in Endpoints(aggregates) && aggregates[k].last in Endpoints(aggregates)
  {
    EndpointOf(aggregates, aggregates[k].first);
    EndpointOf(aggregates, aggregates[k].last);
  }

  predicate Apart(xs: seq<int>, ys: seq<int>) {
    forall x, y :: x in xs && y in ys ==> x != y
  }

  predicate ApartEnds(a: Aggregate, b: Aggregate) {
    a.first != b.first && a.first != b.last && a.last != b.first && a.last != b.last
  }

  lemma {:induction false} DuplicateFreeEndpoints(aggregates: seq<Aggregate>)
    ensures Distinct(Endpoints(aggregates)) <==>
            forall i, j :: 0 <= i < j < |aggregates| ==> ApartEnds(aggregates[i], aggregates[j])
  {
    if aggregates != [] {
      var n := |aggregates| - 1;
      var init := aggregates[..n];
      var front, back := Endpoints(init), Ends(aggregates[n]);
      DuplicateFreeEndpoints(init);
      Separate(front, back);
      LastApart(aggregates);
      assert forall i, j :: 0 <= i < j < n ==> init[i] == aggregates[i] && init[j] == aggregates[j];
      if Distinct(Endpoints(aggregates)) {
        assert forall i, j :: 0 <= i < j < n ==> ApartEnds(init[i], init[j]);
      }
    }
  }

  lemma {:induction false} LastApart(aggregates: seq<Aggregate>)
    requires aggregates != []
    ensures var n := |aggregates| - 1;
            Apart(Endpoints(aggregates[..n]), Ends(aggregates[n])) <==>
            forall i :: 0 <= i < n ==> ApartEnds(aggregates[i], aggregates[n])
  {
    var n := |aggregates| - 1;
    var init, b := aggregates[..n], aggregates[n];
    assert b.first == Ends(b)[0] && b.last == Ends(b)[|Ends(b)| - 1];
    forall i | 0 <= i < n
      ensures init[i] == aggregates[i] && init[i].first in Endpoints(init) && init[i].last in Endpoints(init)
    {
      EndpointsOf(init, i);
    }
    hide Endpoints;
    if Apart(Endpoints(init), Ends(b)) {
      forall i | 0 <= i < n ensures ApartEnds(aggregates[i], b) {
        assert init[i].first in Endpoints(init) && b.first in Ends(b) && b.last in Ends(b);
      }
    }
    if forall i :: 0 <= i < n ==> ApartEnds(aggregates[i], b) {
      forall x, y | x in Endpoints(init) && y in Ends(b) ensures x != y {
        EndpointOf(init, x);
        var k :| 0 <= k < n && x in Ends(init[k]);
        assert init[k] == aggregates[k];
        assert ApartEnds(aggregates[k], b);
      }
    }
  }

  lemma {:induction false} Separate(front: seq<int>, back: seq<int>)
    requires Distinct(back)
    ensures Distinct(front + back) <==> Distinct(front) && Apart(front, back)
  {
    var list := front + back;
    if Distinct(list) {
      forall i, j | 0 <= i < j < |front| ensures front[i] != front[j] {
        assert list[i] != list[j];
      }
      forall x, y | x in front && y in back ensures x != y {
        var i :| 0 <= i < |front| && front[i] == x;
        var j :| 0 <= j < |back| && back[j] == y;
        assert list[i] != list[|front| + j];
      }
    }
    if Distinct(front) && Apart(front, back) {
      forall i, j | 0 <= i < j < |list| ensures list[i] != list[j] {
        if i < |front| <= j {
          assert list[i] in front && list[j] in back;
        }
      }
    }
  }

  // ----- Unions of disjoint parts -----

  lemma {:induction false} UnionSnoc(parts: seq<set<int>>)
    requires parts != []
    ensures UnionOf(parts) == UnionOf(parts[..|parts| - 1]) + parts[|parts| - 1]
  {
    var n := |parts| - 1;
    forall x | x in UnionOf(parts) ensures x in UnionOf(parts[..n]) + parts[n] {
      var k :| 0 <= k < |parts| && x in parts[k];
      if k < n { assert x in parts[..n][k]; }
    }
    forall x | x in UnionOf(parts[..n]) ensures x in UnionOf(parts) {
      var k :| 0 <= k < n && x in parts[..n][k];
      assert x in parts[k];
    }
    forall x | x in parts[n] ensures x in UnionOf(parts) {
    }
  }

  lemma {:induction false} LastIsApart(parts: seq<set<int>>)
    requires parts != [] && PairwiseDisjoint(parts)
    ensures UnionOf(parts[..|parts| - 1]) !! parts[|parts| - 1]
  {
    var n := |parts| - 1;
    forall x | x in UnionOf(parts[..n]) ensures x !in parts[n] {
      var k :| 0 <= k < n && x in parts[..n][k];
      assert parts[k] !! parts[n];
    }
  }

  lemma {:induction false} UnionSize(aggregates: seq<Aggregate>, parts: seq<set<int>>)
    requires |parts| == |aggregates| && PairwiseDisjoint(parts)
    requires forall k :: 0 <= k < |parts| ==> |parts[k]| == aggregates[k].count
    ensures |UnionOf(parts)| == TotalCount(aggregates)
  {
    if parts != [] {
      var n := |parts| - 1;
      UnionSize(aggregates[..n], parts[..n]);
      UnionSnoc(parts);
      LastIsApart(parts);
    } else {
      assert UnionOf(parts) == {};
    }
  }

  lemma {:induction false} SharesFitUnion(aggregates: seq<Aggregate>, parts: seq<set<int>>, lo: int, hi: int)
    requires |parts| == |aggregates| && PairwiseDisjoint(parts)
    requires forall k :: 0 <= k < |parts| ==> Bucket(aggregates[k], parts[k])
    ensures Shares(aggregates, lo, hi) <= |Within(UnionOf(parts), lo, hi)|
  {
    if parts != [] {
      var n := |parts| - 1;
      SharesFitUnion(aggregates[..n], parts[..n], lo, hi);
      UnionSnoc(parts);
      LastIsApart(parts);
      assert Within(UnionOf(parts), lo, hi) == Within(UnionOf(parts[..n]), lo, hi) + Within(parts[n], lo, hi);
      ShareFitsPart(aggregates[n], parts[n], lo, hi);
    }
  }

  lemma {:induction false} ShareFitsPart(a: Aggregate, part: set<int>, lo: int, hi: int)
    requires Bucket(a, part)
    ensures Share(a, lo, hi) <= |Within(part, lo, hi)|
  {
    if lo <= a.first && a.last <= hi {
      assert Within(part, lo, hi) == part;
    } else {
      CountInIsSize(Ends(a), lo, hi);
      SubsetSize(Within(Elements(Ends(a)), lo, hi), Within(part, lo, hi));
    }
  }

  // ----- Realizable summaries are counted as such -----

  lemma {:induction false} BucketIsShaped(a: Aggregate, part: set<int>)
    requires Bucket(a, part)
    ensures Shaped(a) && (a.count != 1 || a.first == a.last)
  {
    DistinctBySize(Ends(a));
    SubsetSize(Elements(Ends(a)), part);
  }

  lemma {:induction false} LeftOver(ids: seq<int>, aggregates: seq<Aggregate>, begun: int, parts: seq<set<int>>)
    requires 0 <= begun && IdsOk(ids, begun)
    requires |parts| == |aggregates| && PairwiseDisjoint(parts)
    requires forall k :: 0 <= k < |parts| ==>
               |parts[k]| == aggregates[k].count && parts[k] <= Ordinals(begun) - Elements(ids)
    ensures |Ordinals(begun) - Elements(ids) - UnionOf(parts)| == begun - |ids| - TotalCount(aggregates)
  {
    UnionSize(aggregates, parts);
    DistinctBySize(ids);
    hide PairwiseDisjoint, Distinct, TotalCount;
    assert UnionOf(parts) <= Ordinals(begun) - Elements(ids);
    RemovedSize(Ordinals(begun), Elements(ids), UnionOf(parts));
  }

  lemma {:induction false} PartsAreShaped(ids: seq<int>, aggregates: seq<Aggregate>, accounting: Accounting, parts: seq<set<int>>)
    requires Division(ids, aggregates, accounting, parts)
    ensures forall k :: 0 <= k < |aggregates| ==>
              var a := aggregates[k];
              0 < a.count && 0 <= a.first <= a.last < accounting.begun
              && a.first !in ids && a.last !in ids && (a.count != 1 || a.first == a.last)
    ensures Distinct(Endpoints(aggregates))
  {
    hide Distinct, Endpoints, UnionOf, Shaped, StrictlyIncreasing;
    forall k | 0 <= k < |aggregates|
      ensures var a := aggregates[k];
              0 < a.count && 0 <= a.first <= a.last < accounting.begun
              && a.first !in ids && a.last !in ids && (a.count != 1 || a.first == a.last)
    {
      PartIsShaped(ids, aggregates[k], accounting.begun, parts[k]);
    }
    forall i, j | 0 <= i < j < |aggregates| ensures ApartEnds(aggregates[i], aggregates[j]) {
      assert parts[i] !! parts[j];
    }
    DuplicateFreeEndpoints(aggregates);
  }

  lemma {:induction false} PartIsShaped(ids: seq<int>, a: Aggregate, begun: int, part: set<int>)
    requires Bucket(a, part) && part <= Ordinals(begun) - Elements(ids)
    ensures 0 < a.count && 0 <= a.first <= a.last < begun && a.first !in ids && a.last !in ids
    ensures a.count != 1 || a.first == a.last
  {
    BucketIsShaped(a, part);
    assert a.first in part && a.last in part;
  }

  // Retained ids and bucket shares fit any interval together, being apart in it.
  lemma {:induction false} DivisionHasRoom(ids: seq<int>, aggregates: seq<Aggregate>, accounting: Accounting,
                                           parts: seq<set<int>>, lo: int, hi: int)
    requires Division(ids, aggregates, accounting, parts) && Distinct(ids) && lo <= hi
    ensures RoomBetween(ids, aggregates, lo, hi)
  {
    hide Distinct, CountIn, Shares, Bucket, Ordinals, StrictlyIncreasing;
    CountInIsSize(ids, lo, hi);
    SharesFitUnion(aggregates, parts, lo, hi);
    assert UnionOf(parts) !! Elements(ids);
    ApartFit(Elements(ids), UnionOf(parts), lo, hi);
  }

  lemma {:induction false} ApartFit(a: set<int>, b: set<int>, lo: int, hi: int)
    requires a !! b && lo <= hi
    ensures |Within(a, lo, hi)| + |Within(b, lo, hi)| <= hi - lo + 1
  {
    var kept, spread := Within(a, lo, hi), Within(b, lo, hi);
    assert kept !! spread;
    SubsetSize(kept + spread, Span(lo, hi));
  }

  lemma {:induction false} DivisionTotals(ids: seq<int>, aggregates: seq<Aggregate>, accounting: Accounting, parts: seq<set<int>>)
    requires 0 <= accounting.begun && Division(ids, aggregates, accounting, parts)
    ensures IdsOk(ids, accounting.begun) && Distinct(ids)
    ensures |ids| + accounting.omittedOperations + TotalCount(aggregates) == accounting.begun
  {
    forall i | 0 <= i < |ids| ensures 0 <= ids[i] < accounting.begun {
      assert ids[i] in Elements(ids);
    }
    assert IdsOk(ids, accounting.begun) && Distinct(ids);
    hide IdsOk, Distinct, StrictlyIncreasing, TotalCount, Ordinals, PairwiseDisjoint, UnionOf, Ends;
    LeftOver(ids, aggregates, accounting.begun, parts);
  }

  lemma {:induction false} DivisionIsCounted(ids: seq<int>, aggregates: seq<Aggregate>, accounting: Accounting, parts: seq<set<int>>)
    requires 0 <= accounting.begun
    requires Division(ids, aggregates, accounting, parts)
    ensures Counted(ids, aggregates, accounting)
  {
    hide Division, Distinct, RoomBetween, Endpoints, TotalCount, IdsOk;
    DivisionTotals(ids, aggregates, accounting, parts);
    PartsAreShaped(ids, aggregates, accounting, parts);
    forall lo, hi | lo <= hi ensures RoomBetween(ids, aggregates, lo, hi) {
      DivisionHasRoom(ids, aggregates, accounting, parts, lo, hi);
    }
  }

  // ----- Counted summaries are realizable -----

  // The tightest interval between endpoints around the needy windows inside [lo, hi].
  lemma {:induction false} Tighten(ws: seq<Window>, lo: int, hi: int) returns (some: bool, lo': int, hi': int)
    requires forall k :: 0 <= k < |ws| ==> ws[k].first <= ws[k].last
    ensures !some ==> forall k :: 0 <= k < |ws| && Contains(ws[k], lo, hi) ==> ws[k].need == 0
    ensures some ==> lo <= lo' <= hi' <= hi
    ensures some ==> exists i, j :: 0 <= i < |ws| && 0 <= j < |ws| && lo' == ws[i].first && hi' == ws[j].last
    ensures some ==> forall k :: 0 <= k < |ws| && ws[k].need > 0 && Contains(ws[k], lo, hi) ==> Contains(ws[k], lo', hi')
  {
    some, lo', hi' := false, lo, hi;
    for n := 0 to |ws|
      invariant !some ==> forall k :: 0 <= k < n && Contains(ws[k], lo, hi) ==> ws[k].need == 0
      invariant some ==> lo <= lo' <= hi' <= hi
      invariant some ==> exists i, j :: 0 <= i < |ws| && 0 <= j < |ws| && lo' == ws[i].first && hi' == ws[j].last
      invariant some ==> forall k :: 0 <= k < n && ws[k].need > 0 && Contains(ws[k], lo, hi) ==> Contains(ws[k], lo', hi')
    {
      if ws[n].need > 0 && Contains(ws[n], lo, hi) {
        if some {
          lo' := if ws[n].first < lo' then ws[n].first else lo';
          hi' := if hi' < ws[n].last then ws[n].last else hi';
        } else {
          some, lo', hi' := true, ws[n].first, ws[n].last;
        }
      }
    }
  }

  lemma {:induction false} RemovedSize(all: set<int>, a: set<int>, b: set<int>)
    requires a <= all && b <= all && a !! b
    ensures |all - a - b| == |all| - |a| - |b|
  {
    assert all - a == (all - a - b) + b;
  }

  lemma {:induction false} FreeInSpan(ids: set<int>, ends: set<int>, begun: int, lo: int, hi: int)
    requires 0 <= lo <= hi < begun && ids !! ends
    ensures |Within(Ordinals(begun) - ids - ends, lo, hi)| == hi - lo + 1 - |Within(ids, lo, hi)| - |Within(ends, lo, hi)|
  {
    hide Span;
    RemovedSize(Span(lo, hi), Within(ids, lo, hi), Within(ends, lo, hi));
    assert Within(Ordinals(begun) - ids - ends, lo, hi) == Span(lo, hi) - Within(ids, lo, hi) - Within(ends, lo, hi);
  }

  // Hall's condition at one pair of endpoints, read off the endpoint loop.
  lemma {:induction false} RoomAtEndpoints(ids: seq<int>, aggregates: seq<Aggregate>, begun: int, lo: int, hi: int)
    requires forall a :: a in aggregates ==> Shaped(a)
    requires IdsOk(ids, begun) && Distinct(Endpoints(aggregates))
    requires Elements(ids) !! Elements(Endpoints(aggregates))
    requires 0 <= lo <= hi < begun
    requires RoomBetween(ids, aggregates, lo, hi)
    ensures Load(Windows(aggregates), lo, hi)
         <= |Within(Ordinals(begun) - Elements(ids) - Elements(Endpoints(aggregates)), lo, hi)|
  {
    SharesSplit(aggregates, lo, hi);
    CountInIsSize(ids, lo, hi);
    CountInIsSize(Endpoints(aggregates), lo, hi);
    FreeInSpan(Elements(ids), Elements(Endpoints(aggregates)), begun, lo, hi);
  }

  lemma {:induction false} EndpointsNotRetained(ids: seq<int>, aggregates: seq<Aggregate>, accounting: Accounting)
    requires Counted(ids, aggregates, accounting)
    ensures Elements(ids) !! Elements(Endpoints(aggregates))
  {
    forall x | x in Endpoints(aggregates) ensures x !in ids {
      EndpointOf(aggregates, x);
    }
  }

  lemma {:induction false} WithinGrows(free: set<int>, lo: int, hi: int, lo': int, hi': int)
    requires lo <= lo' && hi' <= hi
    ensures |Within(free, lo', hi')| <= |Within(free, lo, hi)|
  {
    SubsetSize(Within(free, lo', hi'), Within(free, lo, hi));
  }

  lemma {:induction false} HallAt(ids: seq<int>, aggregates: seq<Aggregate>, begun: int, lo: int, hi: int)
    requires forall k :: 0 <= k < |aggregates| ==> 0 <= aggregates[k].first <= aggregates[k].last < begun
    requires forall a :: a in aggregates ==> Shaped(a)
    requires IdsOk(ids, begun) && Distinct(Endpoints(aggregates)) && Roomy(ids, aggregates)
    requires Elements(ids) !! Elements(Endpoints(aggregates))
    ensures Load(Windows(aggregates), lo, hi)
         <= |Within(Ordinals(begun) - Elements(ids) - Elements(Endpoints(aggregates)), lo, hi)|
  {
    hide Within, Load, Distinct, Endpoints, Ordinals, RoomBetween;
    var ws := Windows(aggregates);
    var free := Ordinals(begun) - Elements(ids) - Elements(Endpoints(aggregates));
    var some, lo', hi' := Tighten(ws, lo, hi);
    if some {
      var i, j :| 0 <= i < |ws| && 0 <= j < |ws| && lo' == ws[i].first && hi' == ws[j].last;
      EndpointsOf(aggregates, i);
      EndpointsOf(aggregates, j);
      LoadShrinks(ws, lo, hi, lo', hi');
      RoomAtEndpoints(ids, aggregates, begun, lo', hi');
      WithinGrows(free, lo, hi, lo', hi');
    } else {
      LoadShrinks(ws, lo, hi, hi + 1, hi);
      NothingInside(ws, hi);
    }
  }

  lemma {:induction false} CountedMeetsHall(ids: seq<int>, aggregates: seq<Aggregate>, accounting: Accounting)
    requires Counted(ids, aggregates, accounting) && forall a :: a in aggregates ==> Shaped(a)
    ensures Hall(Windows(aggregates), Ordinals(accounting.begun) - Elements(ids) - Elements(Endpoints(aggregates)))
  {
    EndpointsNotRetained(ids, aggregates, accounting);
    forall lo, hi
      ensures Load(Windows(aggregates), lo, hi)
           <= |Within(Ordinals(accounting.begun) - Elements(ids) - Elements(Endpoints(aggregates)), lo, hi)|
    {
      HallAt(ids, aggregates, accounting.begun, lo, hi);
    }
  }

  lemma {:induction false} NothingInside(ws: seq<Window>, hi: int)
    requires forall k :: 0 <= k < |ws| ==> ws[k].first <= ws[k].last
    ensures Load(ws, hi + 1, hi) == 0
  {
    if ws != [] {
      NothingInside(ws[..|ws| - 1], hi);
    }
  }

  lemma {:induction false} CountedIsShaped(ids: seq<int>, aggregates: seq<Aggregate>, accounting: Accounting)
    requires Counted(ids, aggregates, accounting)
    ensures forall a :: a in aggregates ==> Shaped(a)
  {
    forall a | a in aggregates ensures Shaped(a) {
      var k :| 0 <= k < |aggregates| && aggregates[k] == a;
    }
  }

  // The endpoint loop implies both per-aggregate count bounds.
  lemma {:induction false} CountBoundsImplied(ids: seq<int>, aggregates: seq<Aggregate>, accounting: Accounting, k: nat)
    requires Counted(ids, aggregates, accounting) && k < |aggregates|
    ensures OrdinalsOk(aggregates[k], accounting) && NoCollision(aggregates[k], ids)
  {
    var a := aggregates[k];
    CountedIsShaped(ids, aggregates, accounting);
    EndpointsOf(aggregates, k);
    SharesAtLeast(aggregates, k, a.first, a.last);
  }

  // A schedule of the free slots, completed with the endpoints, fills every bucket.
  lemma {:induction false} FilledBucket(a: Aggregate, free: set<int>, pick: set<int>)
    requires Shaped(a) && a.first !in free && a.last !in free
    requires pick <= Within(free, a.first, a.last) && |pick| == WindowOf(a).need
    ensures Bucket(a, pick + Elements(Ends(a)))
  {
    DistinctBySize(Ends(a));
    assert Ends(a)[0] == a.first && Ends(a)[|Ends(a)| - 1] == a.last;
    assert pick !! Elements(Ends(a));
  }

  lemma {:induction false} EndsAreEndpoints(aggregates: seq<Aggregate>, k: nat)
    requires k < |aggregates|
    ensures Elements(Ends(aggregates[k])) <= Elements(Endpoints(aggregates))
  {
    EndpointsOf(aggregates, k);
  }

  function Filled(aggregates: seq<Aggregate>, picks: seq<set<int>>): (parts: seq<set<int>>)
    requires |picks| == |aggregates|
    ensures |parts| == |aggregates|
    ensures forall k :: 0 <= k < |parts| ==> parts[k] == picks[k] + Elements(Ends(aggregates[k]))
  {
    seq(|aggregates|, k requires 0 <= k < |aggregates| => picks[k] + Elements(Ends(aggregates[k])))
  }

  lemma {:induction false} FilledDisjoint(aggregates: seq<Aggregate>, free: set<int>, picks: seq<set<int>>)
    requires |picks| == |aggregates| && PairwiseDisjoint(picks)
    requires Distinct(Endpoints(aggregates)) && free !! Elements(Endpoints(aggregates))
    requires forall k :: 0 <= k < |picks| ==> picks[k] <= free
    ensures PairwiseDisjoint(Filled(aggregates, picks))
  {
    var parts := Filled(aggregates, picks);
    DuplicateFreeEndpoints(aggregates);
    forall i, j | 0 <= i < j < |parts| ensures parts[i] !! parts[j] {
      EndsAreEndpoints(aggregates, i);
      EndsAreEndpoints(aggregates, j);
      assert ApartEnds(aggregates[i], aggregates[j]);
      assert Elements(Ends(aggregates[i])) !! Elements(Ends(aggregates[j]));
    }
  }

  lemma {:induction false} FilledBuckets(aggregates: seq<Aggregate>, free: set<int>, picks: seq<set<int>>)
    requires forall a :: a in aggregates ==> Shaped(a)
    requires free !! Elements(Endpoints(aggregates)) && IsSchedule(Windows(aggregates), free, picks)
    ensures forall k :: 0 <= k < |picks| ==> picks[k] <= free
    ensures forall k :: 0 <= k < |aggregates| ==> Bucket(aggregates[k], Filled(aggregates, picks)[k])
    ensures forall k :: 0 <= k < |aggregates| ==> Filled(aggregates, picks)[k] <= free + Elements(Endpoints(aggregates))
  {
    var ws := Windows(aggregates);
    forall k | 0 <= k < |aggregates|
      ensures picks[k] <= free && Bucket(aggregates[k], Filled(aggregates, picks)[k])
      ensures Filled(aggregates, picks)[k] <= free + Elements(Endpoints(aggregates))
    {
      EndsAreEndpoints(aggregates, k);
      EndpointsOf(aggregates, k);
      assert ws[k] == WindowOf(aggregates[k]);
      FilledBucket(aggregates[k], free, picks[k]);
    }
  }

  lemma {:induction false} EndpointsAreOrdinals(ids: seq<int>, aggregates: seq<Aggregate>, accounting: Accounting)
    requires Counted(ids, aggregates, accounting)
    ensures Elements(Endpoints(aggregates)) <= Ordinals(accounting.begun) - Elements(ids)
  {
    forall x | x in Endpoints(aggregates) ensures x in Ordinals(accounting.begun) - Elements(ids) {
      EndpointOf(aggregates, x);
    }
  }

  lemma {:induction false} CountedIsRealizable(ids: seq<int>, aggregates: seq<Aggregate>, accounting: Accounting) returns (parts: seq<set<int>>)
    requires 0 <= accounting.begun && Counted(ids, aggregates, accounting)
    ensures Division(ids, aggregates, accounting, parts)
  {
    hide Roomy, Endpoints, Distinct, Hall, Windows, Span, WindowOf, Load, TotalCount, Shaped, Ends;
    CountedIsShaped(ids, aggregates, accounting);
    CountedMeetsHall(ids, aggregates, accounting);
    EndpointsAreOrdinals(ids, aggregates, accounting);
    var free := Ordinals(accounting.begun) - Elements(ids) - Elements(Endpoints(aggregates));
    var picks := Schedule(Windows(aggregates), free);
    FilledBuckets(aggregates, free, picks);
    FilledDisjoint(aggregates, free, picks);
    parts := Filled(aggregates, picks);
    LeftOver(ids, aggregates, accounting.begun, parts);
  }

  // ----- The checker -----

  // Both directions of the interval test: counted summaries are exactly the realizable ones.
  lemma {:induction false} CountedIffRealizable(o: Observation)
    requires o.accounting.Some? && 0 <= o.accounting.value.begun
    ensures Counted(o.operationIds, o.aggregates, o.accounting.value) <==> Realizable(o)
  {
    var accounting := o.accounting.value;
    if Counted(o.operationIds, o.aggregates, accounting) {
      var parts := CountedIsRealizable(o.operationIds, o.aggregates, accounting);
    }
    if Realizable(o) {
      var parts :| Division(o.operationIds, o.aggregates, accounting, parts);
      DivisionIsCounted(o.operationIds, o.aggregates, accounting, parts);
    }
  }

  predicate AggregatesOk(o: Observation, accounting: Accounting) {
    && (forall a :: a in o.aggregates ==>
          Qualified(a) && IsWord(a.count) && IsWord(a.first) && IsWord(a.last)
          && OrdinalsOk(a, accounting) && NoCollision(a, o.operationIds))
    && DistinctBuckets(o.aggregates)
  }

  predicate TotalsOk(o: Observation, accounting: Accounting) {
    && |o.operationIds| <= 64 && IdsOk(o.operationIds, accounting.begun)
    && |o.operationIds| + accounting.omittedOperations + TotalCount(o.aggregates) == accounting.begun
    && accounting.omittedOperations <= o.omitted
  }

  // What the checks find out, taken together, is realizability within the caps.
  lemma {:induction false} ChecksTogether(o: Observation)
    requires o.accounting.Some? && |o.aggregates| <= 12
    requires IsWord(o.accounting.value.begun) && IsWord(o.accounting.value.omittedOperations)
    ensures var accounting := o.accounting.value;
            WithinCaps(o) && Realizable(o) <==>
              && AggregatesOk(o, accounting) && Distinct(Endpoints(o.aggregates))
              && Roomy(o.operationIds, o.aggregates) && TotalsOk(o, accounting)
  {
    hide Distinct, Roomy, Realizable, Endpoints, TotalCount, StrictlyIncreasing, Passive, Qualified;
    var accounting := o.accounting.value;
    forall a ensures Qualified(a) && IsWord(a.count) && IsWord(a.first) && IsWord(a.last) <==> Passive(a) {
      QualifiedIsPassive(a);
    }
    CountedIffRealizable(o);
    if Counted(o.operationIds, o.aggregates, accounting) {
      forall a | a in o.aggregates ensures OrdinalsOk(a, accounting) && NoCollision(a, o.operationIds) {
        var k :| 0 <= k < |o.aggregates| && o.aggregates[k] == a;
        CountBoundsImplied(o.operationIds, o.aggregates, accounting, k);
      }
    }
    if AggregatesOk(o, accounting) {
      assert forall k :: 0 <= k < |o.aggregates| ==> o.aggregates[k] in o.aggregates;
    }
  }

  lemma {:induction false} BucketsNext(aggregates: seq<Aggregate>, i: nat)
    requires i < |aggregates| && DistinctBuckets(aggregates[..i])
    requires forall k :: 0 <= k < i ==> !SameBucket(aggregates[k], aggregates[i])
    ensures DistinctBuckets(aggregates[..i + 1])
  {
    assert forall k :: 0 <= k < i ==> aggregates[..i + 1][k] == aggregates[..i][k];
  }

  // The first loop: qualifiers, ordinals, collisions, bucket keys and the running total.
  method CheckAggregates(o: Observation, accounting: Accounting) returns (r: Result<int>)
    ensures r.Success? <==> AggregatesOk(o, accounting)
    ensures r.Success? ==> r.value == |o.operationIds| + accounting.omittedOperations + TotalCount(o.aggregates)
  {
    hide Qualified, OrdinalsOk, NoCollision, IsWord;
    var keys: set<(string, string)> := {};
    var total := |o.operationIds| + accounting.omittedOperations;
    for i := 0 to |o.aggregates|
      invariant forall k :: 0 <= k < i ==>
        var a := o.aggregates[k];
        Qualified(a) && IsWord(a.count) && IsWord(a.first) && IsWord(a.last)
        && OrdinalsOk(a, accounting) && NoCollision(a, o.operationIds)
      invariant DistinctBuckets(o.aggregates[..i])
      invariant keys == set k | 0 <= k < i :: (o.aggregates[k].feature, o.aggregates[k].trigger)
      invariant total == |o.operationIds| + accounting.omittedOperations + TotalCount(o.aggregates[..i])
    {
      var a := o.aggregates[i];
      if !Qualified(a) {
        return Failure("invalid passive qualifier");
      }
      if !(IsWord(a.count) && IsWord(a.first) && IsWord(a.last) && OrdinalsOk(a, accounting)) {
        return Failure("invalid passive ordinals");
      }
      if !NoCollision(a, o.operationIds) {
        return Failure("passive ordinal collision");
      }
      var key := (a.feature, a.trigger);
      if key in keys {
        var k :| 0 <= k < i && (o.aggregates[k].feature, o.aggregates[k].trigger) == key;
        assert SameBucket(o.aggregates[k], o.aggregates[i]);
        return Failure("duplicate passive bucket");
      }
      keys := keys + {key};
      total := total + a.count;
      assert o.aggregates[..i + 1] == o.aggregates[..i] + [a];
      forall j | 0 <= j < i ensures !SameBucket(o.aggregates[j], a) {
        assert (o.aggregates[j].feature, o.aggregates[j].trigger) in keys;
      }
      BucketsNext(o.aggregates, i);
    }
    assert o.aggregates[..|o.aggregates|] == o.aggregates;
    return Success(total);
  }

  method CollectEndpoints(aggregates: seq<Aggregate>) returns (endpoints: seq<int>)
    ensures endpoints == Endpoints(aggregates)
  {
    endpoints := [];
    for i := 0 to |aggregates|
      invariant endpoints == Endpoints(aggregates[..i])
    {
      endpoints := endpoints + Ends(aggregates[i]);
      assert aggregates[..i + 1][..i] == aggregates[..i];
    }
    assert aggregates[..|aggregates|] == aggregates;
  }

  // What one pair of endpoints must hold.
  method RequiredBetween(ids: seq<int>, aggregates: seq<Aggregate>, lo: int, hi: int) returns (required: int)
    ensures required == CountIn(ids, lo, hi) + Shares(aggregates, lo, hi)
  {
    required := CountIn(ids, lo, hi);
    for i := 0 to |aggregates|
      invariant required == CountIn(ids, lo, hi) + Shares(aggregates[..i], lo, hi)
    {
      required := required + Share(aggregates[i], lo, hi);
      assert aggregates[..i + 1][..i] == aggregates[..i];
    }
    assert aggregates[..|aggregates|] == aggregates;
  }

  // The nested endpoint loop.
  method CheckRoom(ids: seq<int>, aggregates: seq<Aggregate>, endpoints: seq<int>) returns (roomy: bool)
    requires endpoints == Endpoints(aggregates)
    ensures roomy <==> Roomy(ids, aggregates)
  {
    for i := 0 to |endpoints|
      invariant forall p, q :: 0 <= p < i && 0 <= q < |endpoints| && endpoints[p] <= endpoints[q] ==>
        RoomBetween(ids, aggregates, endpoints[p], endpoints[q])
    {
      for j := 0 to |endpoints|
        invariant forall q :: 0 <= q < j && endpoints[i] <= endpoints[q] ==>
          RoomBetween(ids, aggregates, endpoints[i], endpoints[q])
      {
        var first, last := endpoints[i], endpoints[j];
        if first > last {
          continue;
        }
        var required := RequiredBetween(ids, aggregates, first, last);
        if required > last - first + 1 {
          assert !RoomBetween(ids, aggregates, first, last);
          return false;
        }
      }
    }
    return true;
  }

  // Accepts exactly the legacy summaries without aggregates and the version-2 summaries that some
  // real division of [0, begun) explains.
  method PassiveFacts(o: Observation) returns (r: Result<seq<Aggregate>>)
    ensures r.Success? <==>
      || (o.version == 1 && o.aggregates == [] && o.accounting.None?)
      || (o.version == 2 && WithinCaps(o) && Realizable(o))
    ensures r.Success? ==> r.value == o.aggregates
  {
    if o.version != 1 && o.version != 2 {
      return Failure("unsupported turn observation version");
    }
    if o.version == 1 {
      if o.aggregates != [] || o.accounting.Some? {
        return Failure("legacy aggregate ambiguity");
      }
      return Success([]);
    }
    if o.accounting.None? || !IsWord(o.accounting.value.begun) || !IsWord(o.accounting.value.omittedOperations)
       || |o.aggregates| > 12
    {
      return Failure("invalid aggregate accounting");
    }
    var accounting := o.accounting.value;
    ChecksTogether(o);
    var totalled := CheckAggregates(o, accounting);
    if totalled.Failure? {
      return Failure(totalled.error);
    }
    var endpoints := CollectEndpoints(o.aggregates);
    DistinctBySize(endpoints);
    if |endpoints| != |Elements(endpoints)| {
      return Failure("duplicate passive ordinal");
    }
    var roomy := CheckRoom(o.operationIds, o.aggregates, endpoints);
    if !roomy {
      return Failure("passive ordinal ranges cannot be disjoint");
    }
    if |o.operationIds| > 64 || !IdsOk(o.operationIds, accounting.begun)
       || totalled.value != accounting.begun || accounting.omittedOperations > o.omitted
    {
      return Failure("operation totals mismatch");
    }
    return Success(o.aggregates);
  }
}
