// Retention scoring and its baseline comparison (fixtures/evals/compaction/score_retention.py), over exact rationals.
module RetentionScore {
  import opened Collections
  import opened Text
  import opened Wrappers

  datatype Case = Case(id: string)

  // One oracle check of the corpus, repeated once per repetition.
  datatype Check = Check(repetition: nat, scenario: Case, cycle: int, category: Case, id: Case, critical: bool)

  datatype Scored = Scored(check: Check, ok: bool)

  datatype Grouping = ByCase | ByCycle | ByCategory | ByRepetitionCase

  datatype Tag = Tag(text: string)

  function TagOf(g: Grouping, c: Check): Tag {
    match g
    case ByCase => Tag(c.scenario.id)
    case ByCycle => Tag(c.scenario.id + ":" + Decimal(c.cycle))
    case ByCategory => Tag(c.category.id)
    case ByRepetitionCase => Tag(Decimal(c.repetition) + ":" + c.scenario.id)
  }

  // Whatever the ids, two checks are filed together exactly when they share what the grouping names.
  lemma {:induction false} TagTells(g: Grouping, a: Check, b: Check)
    ensures TagOf(g, a) == TagOf(g, b) <==>
            match g
            case ByCase => a.scenario == b.scenario
            case ByCycle => a.scenario == b.scenario && a.cycle == b.cycle
            case ByCategory => a.category == b.category
            case ByRepetitionCase => a.scenario == b.scenario && a.repetition == b.repetition
  {
    DecimalIsInjective(a.cycle, b.cycle);
    DecimalIsInjective(b.cycle, a.cycle);
    DecimalIsInjective(a.repetition, b.repetition);
    DecimalIsInjective(b.repetition, a.repetition);
    assert !IsDigit(':') && ':' != '-';
    match g
    case ByCycle =>
      if TagOf(g, a) == TagOf(g, b) {
        SuffixTells(a.scenario.id, Decimal(a.cycle), b.scenario.id, Decimal(b.cycle));
      }
    case ByRepetitionCase =>
      if TagOf(g, a) == TagOf(g, b) {
        PrefixTells(Decimal(a.repetition), a.scenario.id, Decimal(b.repetition), b.scenario.id);
      }
    case _ =>
  }

  lemma {:induction false} PrefixTells(a: string, x: string, b: string, y: string)
    requires a + ":" + x == b + ":" + y && ':' !in a && ':' !in b
    ensures a == b && x == y
  {
    var whole := a + ":" + x;
    assert whole[|a|] == ':' && whole[|b|] == ':';
    assert whole[..|a|] == a && whole[..|b|] == b && whole[|a| + 1..] == x && whole[|b| + 1..] == y;
    assert forall i :: 0 <= i < |a| ==> whole[i] == a[i];
    assert forall i :: 0 <= i < |b| ==> whole[i] == b[i];
  }

  lemma {:induction false} SuffixTells(x: string, a: string, y: string, b: string)
    requires x + ":" + a == y + ":" + b && ':' !in a && ':' !in b
    ensures a == b && x == y
  {
    var whole := x + ":" + a;
    assert whole[|x|] == ':' && whole[|y|] == ':';
    assert whole[..|x|] == x && whole[..|y|] == y && whole[|x| + 1..] == a && whole[|y| + 1..] == b;
    assert forall i :: |x| < i < |whole| ==> whole[i] == a[i - |x| - 1];
    assert forall i :: |y| < i < |whole| ==> whole[i] == b[i - |y| - 1];
  }

  datatype Count = Count(passed: nat, total: nat) {
    function Plus(other: Count): Count {
      Count(passed + other.passed, total + other.total)
    }

    function Add(ok: bool): Count {
      Count(passed + if ok then 1 else 0, total + 1)
    }

    // The percentage, as an exact rational.
    function Score(): real
      requires total > 0
    {
      100.0 * passed as real / total as real
    }
  }

  // ----- What the counters mean -----

  function Overall(checks: seq<Scored>): Count {
    if checks == [] then Count(0, 0) else Overall(checks[..|checks| - 1]).Add(checks[|checks| - 1].ok)
  }

  ghost function Holding(checks: seq<Scored>): set<int> {
    set i | 0 <= i < |checks| && checks[i].ok
  }

  ghost function Missing(checks: seq<Scored>): set<int> {
    set i | 0 <= i < |checks| && checks[i].check.critical && !checks[i].ok
  }

  // The numbers are those of all checks, and of those that hold.
  lemma {:induction false} OverallCounts(checks: seq<Scored>)
    ensures Overall(checks) == Count(|Holding(checks)|, |checks|)
  {
    if checks == [] {
      assert Holding(checks) == {};
    } else {
      var n := |checks| - 1;
      OverallCounts(checks[..n]);
      if checks[n].ok {
        assert Holding(checks) == Holding(checks[..n]) + {n};
      } else {
        assert Holding(checks) == Holding(checks[..n]);
      }
    }
  }

  lemma {:induction false} MissesCount(checks: seq<Scored>)
    ensures CriticalMisses(checks) == |Missing(checks)|
  {
    if checks == [] {
      assert Missing(checks) == {};
    } else {
      var n := |checks| - 1;
      MissesCount(checks[..n]);
      if checks[n].check.critical && !checks[n].ok {
        assert Missing(checks) == Missing(checks[..n]) + {n};
      } else {
        assert Missing(checks) == Missing(checks[..n]);
      }
    }
  }

  // The counts of the checks filed under one tag.
  function Tally(checks: seq<Scored>, g: Grouping, tag: Tag): Count {
    if checks == [] then Count(0, 0)
    else
      var last, rest := checks[|checks| - 1], Tally(checks[..|checks| - 1], g, tag);
      if TagOf(g, last.check) == tag then rest.Add(last.ok) else rest
  }

  ghost predicate Carries(checks: seq<Scored>, g: Grouping, tag: Tag) {
    exists i :: 0 <= i < |checks| && TagOf(g, checks[i].check) == tag
  }

  function CriticalMisses(checks: seq<Scored>): nat {
    if checks == [] then 0
    else
      var last := checks[|checks| - 1];
      CriticalMisses(checks[..|checks| - 1]) + if last.check.critical && !last.ok then 1 else 0
  }

  // The sum of the counts in one grouping, over a listing of its tags.
  function Total(tags: seq<Tag>, checks: seq<Scored>, g: Grouping): Count {
    if tags == [] then Count(0, 0)
    else Total(tags[..|tags| - 1], checks, g).Plus(Tally(checks, g, tags[|tags| - 1]))
  }

  lemma {:induction false} TallyAfter(checks: seq<Scored>, g: Grouping, tag: Tag)
    requires checks != []
    ensures
      var before, last := Tally(checks[..|checks| - 1], g, tag), checks[|checks| - 1];
      Tally(checks, g, tag) == if TagOf(g, last.check) == tag then before.Add(last.ok) else before
  {
  }

  // One more check changes the count of one tag only.
  lemma {:induction false} TotalAfter(tags: seq<Tag>, checks: seq<Scored>, g: Grouping)
    requires checks != [] && Distinct(tags)
    ensures
      var init, last := checks[..|checks| - 1], checks[|checks| - 1];
      Total(tags, checks, g) ==
        if TagOf(g, last.check) in tags then Total(tags, init, g).Add(last.ok) else Total(tags, init, g)
  {
    hide TagOf, Tally;
    if tags != [] {
      var rest, tag := tags[..|tags| - 1], tags[|tags| - 1];
      TotalAfter(rest, checks, g);
      TallyAfter(checks, g, tag);
      assert tags == rest + [tag];
      LastIsNew(tags);
    }
  }

  lemma {:induction false} LastIsNew(tags: seq<Tag>)
    requires Distinct(tags) && tags != []
    ensures tags[|tags| - 1] !in tags[..|tags| - 1]
  {
  }

  lemma {:induction false} TotalOfNothing(tags: seq<Tag>, g: Grouping)
    ensures Total(tags, [], g) == Count(0, 0)
  {
    if tags != [] {
      TotalOfNothing(tags[..|tags| - 1], g);
    }
  }

  // Each grouping partitions the checks: its counts sum to the overall ones.
  lemma {:induction false} GroupingPartitions(tags: seq<Tag>, checks: seq<Scored>, g: Grouping)
    requires Distinct(tags)
    requires forall i :: 0 <= i < |checks| ==> TagOf(g, checks[i].check) in tags
    ensures Total(tags, checks, g) == Overall(checks)
  {
    if checks == [] {
      TotalOfNothing(tags, g);
    } else {
      GroupingPartitions(tags, checks[..|checks| - 1], g);
      TotalAfter(tags, checks, g);
    }
  }

  // ----- The score report -----

  datatype Groups = Groups(
    cases: map<Tag, Count>, cycles: map<Tag, Count>, categories: map<Tag, Count>, repetitionCases: map<Tag, Count>)
  {
    function Of(g: Grouping): map<Tag, Count> {
      match g
      case ByCase => cases
      case ByCycle => cycles
      case ByCategory => categories
      case ByRepetitionCase => repetitionCases
    }
  }

  datatype CheckKey = CheckKey(repetition: nat, scenario: Case, cycle: int, id: Case)

  function KeyOf(c: Check): (k: CheckKey)
    ensures k.repetition == c.repetition && k.scenario == c.scenario && k.cycle == c.cycle && k.id == c.id
  {
    CheckKey(c.repetition, c.scenario, c.cycle, c.id)
  }

  datatype Report = Report(
    overall: Count, misses: nat, groups: Groups, critical: map<CheckKey, bool>, accepted: bool)

  ghost predicate Counts(m: map<Tag, Count>, checks: seq<Scored>, g: Grouping) {
    && (forall tag :: tag in m <==> Carries(checks, g, tag))
    && (forall tag :: tag in m ==> m[tag] == Tally(checks, g, tag) && m[tag].total > 0)
  }

  ghost predicate CountsAll(groups: Groups, checks: seq<Scored>) {
    forall g :: Counts(groups.Of(g), checks, g)
  }

  // Check i is the last critical one filed under its key.
  ghost predicate IsLast(checks: seq<Scored>, i: nat, k: CheckKey)
    requires i < |checks|
  {
    && checks[i].check.critical
    && KeyOf(checks[i].check) == k
    && forall j :: i < j < |checks| && checks[j].check.critical ==> KeyOf(checks[j].check) != k
  }

  // The critical checks' outcomes; a key given twice keeps its last one.
  ghost predicate Outcomes(critical: map<CheckKey, bool>, checks: seq<Scored>) {
    && (forall i :: 0 <= i < |checks| && checks[i].check.critical ==> KeyOf(checks[i].check) in critical)
    && (forall k :: k in critical ==>
          exists i :: 0 <= i < |checks| && IsLast(checks, i, k) && checks[i].ok == critical[k])
  }

  // The acceptance gates over the numbers: no critical miss, 95 overall and 90 in each repetition of each case.
  ghost predicate Gates(checks: seq<Scored>) {
    && CriticalMisses(checks) == 0
    && 100 * Overall(checks).passed >= 95 * Overall(checks).total
    && (forall tag :: Carries(checks, ByRepetitionCase, tag) ==>
          var count := Tally(checks, ByRepetitionCase, tag);
          100 * count.passed >= 90 * count.total)
  }

  ghost predicate Describes(report: Report, checks: seq<Scored>, blocked: bool) {
    && checks != []
    && report.overall == Overall(checks)
    && report.misses == CriticalMisses(checks)
    && CountsAll(report.groups, checks)
    && Outcomes(report.critical, checks)
    && (report.accepted <==> !blocked && Gates(checks))
  }

  method Bump(m: map<Tag, Count>, tag: Tag, ghost g: Grouping, ghost before: seq<Scored>, s: Scored) returns (r: map<Tag, Count>)
    requires Counts(m, before, g) && tag == TagOf(g, s.check)
    ensures Counts(r, before + [s], g)
  {
    hide TagOf, Carries, Tally;
    r := m[tag := (if tag in m then m[tag] else Count(0, 0)).Add(s.ok)];
    forall t
      ensures Carries(before + [s], g, t) <==> Carries(before, g, t) || t == tag
      ensures Tally(before + [s], g, t) == if t == tag then Tally(before, g, t).Add(s.ok) else Tally(before, g, t)
    {
      OneMoreCarried(before, s, g, t);
    }
    if tag !in m {
      NothingTallied(before, g, tag);
    }
  }

  lemma {:induction false} OneMoreCarried(before: seq<Scored>, s: Scored, g: Grouping, t: Tag)
    ensures Carries(before + [s], g, t) <==> Carries(before, g, t) || t == TagOf(g, s.check)
    ensures Tally(before + [s], g, t) ==
      if t == TagOf(g, s.check) then Tally(before, g, t).Add(s.ok) else Tally(before, g, t)
  {
    hide TagOf;
    var after := before + [s];
    assert after[..|before|] == before && after[|before|] == s;
    if Carries(before, g, t) {
      var i :| 0 <= i < |before| && TagOf(g, before[i].check) == t;
      assert after[i] == before[i];
    }
    assert TagOf(g, after[|before|].check) == TagOf(g, s.check);
  }

  lemma {:induction false} NothingTallied(checks: seq<Scored>, g: Grouping, tag: Tag)
    requires !Carries(checks, g, tag)
    ensures Tally(checks, g, tag) == Count(0, 0)
  {
    if checks != [] {
      var init := checks[..|checks| - 1];
      assert forall i :: 0 <= i < |init| ==> init[i] == checks[i];
      NothingTallied(init, g, tag);
    }
  }

  lemma {:induction false} OutcomesAfter(critical: map<CheckKey, bool>, before: seq<Scored>, s: Scored)
    requires Outcomes(critical, before)
    ensures Outcomes(if s.check.critical then critical[KeyOf(s.check) := s.ok] else critical, before + [s])
  {
    hide KeyOf;
    var after := before + [s];
    var updated := if s.check.critical then critical[KeyOf(s.check) := s.ok] else critical;
    forall i | 0 <= i < |after| && after[i].check.critical ensures KeyOf(after[i].check) in updated {
      assert i < |before| ==> after[i] == before[i];
    }
    forall k | k in updated
      ensures exists i :: 0 <= i < |after| && IsLast(after, i, k) && after[i].ok == updated[k]
    {
      if s.check.critical && k == KeyOf(s.check) {
        assert IsLast(after, |before|, k);
      } else {
        var i :| 0 <= i < |before| && IsLast(before, i, k) && before[i].ok == critical[k];
        assert after[i] == before[i] && IsLast(after, i, k);
      }
    }
  }

  // The checks of the expected batches, in order, each already judged.
  method Score(checks: seq<Scored>, blocked: bool) returns (r: Result<Report>)
    ensures r.Success? <==> checks != []
    ensures r.Success? ==> Describes(r.value, checks, blocked)
  {
    hide Tally, Carries, TagOf, Outcomes, KeyOf;
    var groups := Groups(map[], map[], map[], map[]);
    var overall, misses, critical := Count(0, 0), 0, map[];
    NothingCounted();
    var i := 0;
    while i < |checks|
      invariant 0 <= i <= |checks|
      invariant overall == Overall(checks[..i]) && misses == CriticalMisses(checks[..i])
      invariant CountsAll(groups, checks[..i]) && Outcomes(critical, checks[..i])
    {
      var s := checks[i];
      ghost var before := checks[..i];
      assert checks[..i + 1] == before + [s] && (before + [s])[..i] == before;
      OutcomesAfter(critical, before, s);
      groups := File(groups, before, s);
      overall := overall.Add(s.ok);
      if s.check.critical {
        critical := critical[KeyOf(s.check) := s.ok];
        misses := misses + if s.ok then 0 else 1;
      }
      i := i + 1;
    }
    assert checks[..i] == checks;
    if overall.total == 0 {
      OverallCounts(checks);
      return Failure("division by zero");
    }
    OverallCounts(checks);
    var accepted := !blocked && misses == 0 && overall.Score() >= 95.0 && AllAtLeast(groups.repetitionCases, 90.0);
    GatesAreChecked(groups, checks);
    r := Success(Report(overall, misses, groups, critical, accepted));
  }

  predicate AllAtLeast(m: map<Tag, Count>, floor: real) {
    forall tag :: tag in m && m[tag].total > 0 ==> m[tag].Score() >= floor
  }

  lemma {:induction false} ScoreAtLeast(count: Count, floor: int)
    requires count.total > 0
    ensures count.Score() >= floor as real <==> 100 * count.passed >= floor * count.total
  {
    var t, x := count.total as real, 100.0 * count.passed as real;
    var f := floor as real;
    assert x / t * t == x;
    if x / t >= f {
      assert (x / t - f) * t >= 0.0;
    } else {
      assert (f - x / t) * t > 0.0;
    }
    assert (floor * count.total) as real == f * t;
  }

  lemma {:induction false} GatesAreChecked(groups: Groups, checks: seq<Scored>)
    requires CountsAll(groups, checks) && Overall(checks).total > 0
    ensures Gates(checks) <==>
      CriticalMisses(checks) == 0 && Overall(checks).Score() >= 95.0 && AllAtLeast(groups.repetitionCases, 90.0)
  {
    hide Tally, Carries, TagOf, Overall, CriticalMisses, Count.Score;
    assert Counts(groups.Of(ByRepetitionCase), checks, ByRepetitionCase);
    ScoreAtLeast(Overall(checks), 95);
    forall tag | Carries(checks, ByRepetitionCase, tag)
      ensures var count := Tally(checks, ByRepetitionCase, tag);
              count.total > 0 && (count.Score() >= 90.0 <==> 100 * count.passed >= 90 * count.total)
    {
      ScoreAtLeast(Tally(checks, ByRepetitionCase, tag), 90);
    }
  }

  lemma {:induction false} NothingCounted()
    ensures CountsAll(Groups(map[], map[], map[], map[]), []) && Outcomes(map[], [])
  {
  }

  method File(groups: Groups, ghost before: seq<Scored>, s: Scored) returns (r: Groups)
    requires CountsAll(groups, before)
    ensures CountsAll(r, before + [s])
  {
    hide Counts;
    assert Counts(groups.Of(ByCase), before, ByCase) && Counts(groups.Of(ByCycle), before, ByCycle);
    assert Counts(groups.Of(ByCategory), before, ByCategory);
    assert Counts(groups.Of(ByRepetitionCase), before, ByRepetitionCase);
    var c := s.check;
    var cases := Bump(groups.cases, Tag(c.scenario.id), ByCase, before, s);
    var cycles := Bump(groups.cycles, Tag(c.scenario.id + ":" + Decimal(c.cycle)), ByCycle, before, s);
    var categories := Bump(groups.categories, Tag(c.category.id), ByCategory, before, s);
    var repetitionCases := Bump(groups.repetitionCases, Tag(Decimal(c.repetition) + ":" + c.scenario.id), ByRepetitionCase, before, s);
    r := Groups(cases, cycles, categories, repetitionCases);
    forall g ensures Counts(r.Of(g), before + [s], g) {
      match g case ByCase => case ByCycle => case ByCategory => case ByRepetitionCase =>
    }
  }

  // ----- The comparison -----

  ghost predicate NoRegression(baseline: map<Tag, Count>, candidate: map<Tag, Count>) {
    && (forall tag :: tag in baseline <==> tag in candidate)
    && (forall tag :: tag in baseline && baseline[tag].total > 0 && candidate[tag].total > 0 ==>
          candidate[tag].Score() >= baseline[tag].Score())
  }

  ghost predicate CriticalKept(baseline: map<CheckKey, bool>, candidate: map<CheckKey, bool>) {
    forall k :: k in baseline && baseline[k] ==> k in candidate && candidate[k]
  }

  ghost predicate Compare(baseline: Report, candidate: Report, equalCoverage: bool) {
    && candidate.accepted
    && equalCoverage
    && NoRegression(baseline.groups.repetitionCases, candidate.groups.repetitionCases)
    && CriticalKept(baseline.critical, candidate.critical)
  }

  // compare, over two reports; whether both cover the same source hashes is given.
  method CompareReports(baseline: Report, candidate: Report, equalCoverage: bool) returns (accepted: bool)
    ensures accepted <==> Compare(baseline, candidate, equalCoverage)
  {
    var before, after := baseline.groups.repetitionCases, candidate.groups.repetitionCases;
    var noRegression := before.Keys == after.Keys
                        && forall tag :: tag in before && before[tag].total > 0 && after[tag].total > 0 ==>
                             !(after[tag].Score() < before[tag].Score());
    var criticalOk := forall k :: k in baseline.critical && baseline.critical[k] ==> k in candidate.critical && candidate.critical[k];
    return candidate.accepted && equalCoverage && noRegression && criticalOk;
  }

  // Two runs over the same corpus and repetitions judge the same checks.
  ghost predicate SameChecks(a: seq<Scored>, b: seq<Scored>) {
    |a| == |b| && forall i :: 0 <= i < |a| ==> a[i].check == b[i].check
  }

  lemma {:induction false} TallyTotals(a: seq<Scored>, b: seq<Scored>, g: Grouping, tag: Tag)
    requires SameChecks(a, b)
    ensures Tally(a, g, tag).total == Tally(b, g, tag).total
  {
    if a != [] {
      TallyTotals(a[..|a| - 1], b[..|b| - 1], g, tag);
    }
  }

  lemma {:induction false} ScoresOrderCounts(low: Count, high: Count)
    requires low.total == high.total > 0
    ensures high.Score() >= low.Score() <==> high.passed >= low.passed
  {
    var t := low.total as real;
    var x, y := 100.0 * low.passed as real, 100.0 * high.passed as real;
    assert x / t * t == x && y / t * t == y;
    if y / t >= x / t {
      assert (y / t - x / t) * t >= 0.0;
    } else {
      assert (x / t - y / t) * t > 0.0;
    }
  }

  // The tags of one grouping, each listed once.
  function TagsOf(checks: seq<Scored>, g: Grouping): seq<Tag> {
    if checks == [] then []
    else
      var rest, tag := TagsOf(checks[..|checks| - 1], g), TagOf(g, checks[|checks| - 1].check);
      if tag in rest then rest else rest + [tag]
  }

  lemma {:induction false} TagsOfHolds(checks: seq<Scored>, g: Grouping, tag: Tag)
    ensures tag in TagsOf(checks, g) <==> Carries(checks, g, tag)
  {
    if checks != [] {
      hide TagOf, Carries;
      var init, last := checks[..|checks| - 1], checks[|checks| - 1];
      TagsOfHolds(init, g, tag);
      assert checks == init + [last];
      OneMoreCarried(init, last, g, tag);
    } else {
      assert !Carries(checks, g, tag);
    }
  }

  lemma {:induction false} TagsOfOnce(checks: seq<Scored>, g: Grouping)
    ensures Distinct(TagsOf(checks, g))
  {
    hide TagOf;
    if checks != [] {
      TagsOfOnce(checks[..|checks| - 1], g);
    }
  }

  lemma {:induction false} TagsOfLists(checks: seq<Scored>, g: Grouping)
    ensures Distinct(TagsOf(checks, g))
    ensures forall i :: 0 <= i < |checks| ==> TagOf(g, checks[i].check) in TagsOf(checks, g)
    ensures forall tag :: tag in TagsOf(checks, g) ==> Carries(checks, g, tag)
  {
    hide TagOf, TagsOf;
    TagsOfOnce(checks, g);
    forall tag ensures tag in TagsOf(checks, g) <==> Carries(checks, g, tag) {
      TagsOfHolds(checks, g, tag);
    }
  }

  lemma {:induction false} TotalsOrdered(tags: seq<Tag>, a: seq<Scored>, b: seq<Scored>, g: Grouping)
    requires forall i :: 0 <= i < |tags| ==> Tally(a, g, tags[i]).passed <= Tally(b, g, tags[i]).passed
    ensures Total(tags, a, g).passed <= Total(tags, b, g).passed
  {
    if tags != [] {
      TotalsOrdered(tags[..|tags| - 1], a, b, g);
    }
  }

  // An accepted comparison over the same checks never lowers the overall score.
  lemma {:induction false} AcceptedNotBelow(baseline: Report, candidate: Report, a: seq<Scored>, b: seq<Scored>,
                                            blockedBase: bool, blocked: bool, equalCoverage: bool)
    requires Describes(baseline, a, blockedBase) && Describes(candidate, b, blocked) && SameChecks(a, b)
    requires Compare(baseline, candidate, equalCoverage)
    ensures baseline.overall.total > 0 && candidate.overall.total > 0
    ensures candidate.overall.Score() >= baseline.overall.Score()
  {
    hide Tally, Total, TagOf, Outcomes, CriticalKept, Gates, Overall, Count.Score, Carries;
    var g := ByRepetitionCase;
    var tags := TagsOf(a, g);
    TagsOfLists(a, g);
    assert Counts(baseline.groups.Of(g), a, g) && Counts(candidate.groups.Of(g), b, g);
    forall i | 0 <= i < |tags| ensures Tally(a, g, tags[i]).passed <= Tally(b, g, tags[i]).passed {
      TallyTotals(a, b, g, tags[i]);
      assert tags[i] in tags && tags[i] in baseline.groups.repetitionCases;
      ScoresOrderCounts(Tally(a, g, tags[i]), Tally(b, g, tags[i]));
    }
    TotalsOrdered(tags, a, b, g);
    GroupingPartitions(tags, a, g);
    forall i | 0 <= i < |b| ensures TagOf(g, b[i].check) in tags {
      assert a[i].check == b[i].check;
    }
    GroupingPartitions(tags, b, g);
    OverallCounts(a);
    OverallCounts(b);
    ScoresOrderCounts(baseline.overall, candidate.overall);
  }

  lemma {:induction false} NoMisses(checks: seq<Scored>, i: nat)
    requires CriticalMisses(checks) == 0 && i < |checks| && checks[i].check.critical
    ensures checks[i].ok
  {
    var init := checks[..|checks| - 1];
    if i < |init| {
      assert init[i] == checks[i];
      NoMisses(init, i);
    }
  }

  // The critical non-regression gate follows from the candidate's own acceptance.
  lemma {:induction false} CriticalGateIsImplied(baseline: Report, candidate: Report, a: seq<Scored>, b: seq<Scored>,
                                                 blockedBase: bool, blocked: bool)
    requires Describes(baseline, a, blockedBase) && Describes(candidate, b, blocked) && SameChecks(a, b)
    requires candidate.accepted
    ensures CriticalKept(baseline.critical, candidate.critical)
  {
    hide Tally, Carries, TagOf, Overall, KeyOf;
    forall k | k in baseline.critical ensures k in candidate.critical && candidate.critical[k] {
      var i :| 0 <= i < |a| && IsLast(a, i, k);
      assert b[i].check == a[i].check;
      var j :| 0 <= j < |b| && IsLast(b, j, k) && b[j].ok == candidate.critical[k];
      NoMisses(b, j);
    }
  }
}
