// Reducing a study to per-feature counters (scripts/judgement-study-live.py, reduce).
//
// Missing and gapped trials are counted, never dropped: the counters of each feature are tied to
// the rows of the schedule and balance against each other.
module StudyReduce {
  import opened Collections
  import opened Wrappers

  datatype Truth = Pass | Fail | Unknown

  // A retained result. `taskTruth` and `truth` are Unknown where the field is absent or neither
  // pass nor fail; a present but unknown task truth still takes precedence.
  datatype Retained = Retained(taskTruth: Option<Truth>, truth: Truth, gap: bool, optionalComplete: bool, hooksSatisfied: bool)

  // A scheduled trial with its result file, if there is one.
  datatype Row = Row(feature: string, caseId: string, repetition: int, metric: string, contrast: string, arm: string,
                     result: Option<Retained>)

  datatype Key = Key(feature: string, caseId: string, repetition: int, metric: string, contrast: string)

  function KeyOf(r: Row): Key {
    Key(r.feature, r.caseId, r.repetition, r.metric, r.contrast)
  }

  function IntentTruth(r: Row): Truth {
    if r.result.None? then Unknown
    else if r.result.value.taskTruth.Some? then r.result.value.taskTruth.value
    else r.result.value.truth
  }

  predicate Observed(r: Row) {
    r.result.Some? && !r.result.value.gap && r.result.value.truth != Unknown && r.result.value.optionalComplete
  }

  datatype Counters = Counters(
    enrolled: nat, ittPass: nat, ittFail: nat, ittUnknown: nat, observed: nat, gaps: nat, pass: nat, fail: nat,
    wins: nat, losses: nat, ties: nat, qualified: nat, unqualified: nat,
    qualifiedWins: nat, qualifiedLosses: nat, qualifiedTies: nat)

  const ZERO := Counters(0, 0, 0, 0, 0, 0, 0, 0, 0, 0, 0, 0, 0, 0, 0, 0)

  type Pairs = map<Key, map<string, Retained>>

  // ----- What is counted -----

  // Ways of looking at a row.
  datatype View = Any | Intends(truth: Truth) | Seen | Gapped | SeenAs(truth: Truth)

  predicate Matches(r: Row, v: View) {
    match v
    case Any => true
    case Intends(t) =>
      (match r.result
       case None => t == Unknown
       case Some(retained) => if retained.taskTruth.None? then retained.truth == t else retained.taskTruth == Some(t))
    case Seen => Decisive(r, Pass) || Decisive(r, Fail)
    case Gapped => !Decisive(r, Pass) && !Decisive(r, Fail)
    case SeenAs(t) => t != Unknown && Decisive(r, t)
  }

  // A complete result without a gap that says t.
  predicate Decisive(r: Row, t: Truth) {
    r.result.Some? && r.result.value.truth == t && !r.result.value.gap && r.result.value.optionalComplete
  }

  // Rows of a feature under a view.
  function Tally(rows: seq<Row>, feature: string, v: View): nat {
    if rows == [] then 0
    else
      var last := rows[|rows| - 1];
      Tally(rows[..|rows| - 1], feature, v) + if last.feature == feature && Matches(last, v) then 1 else 0
  }

  // Two observed rows compete for one arm of one comparison.
  ghost predicate Clash(rows: seq<Row>, i: int, j: int) {
    && 0 <= i < j < |rows| && Matches(rows[i], Seen) && Matches(rows[j], Seen)
    && rows[i].feature == rows[j].feature && rows[i].caseId == rows[j].caseId && rows[i].repetition == rows[j].repetition
    && rows[i].metric == rows[j].metric && rows[i].contrast == rows[j].contrast && rows[i].arm == rows[j].arm
  }

  ghost predicate HasArm(rows: seq<Row>, key: Key, arm: string, result: Retained) {
    exists i :: 0 <= i < |rows| && Observed(rows[i]) && KeyOf(rows[i]) == key && rows[i].arm == arm && rows[i].result == Some(result)
  }

  // The comparison table holds exactly the observed rows.
  ghost predicate Tabulates(pairs: Pairs, rows: seq<Row>) {
    && (forall key, arm :: key in pairs && arm in pairs[key] ==> HasArm(rows, key, arm, pairs[key][arm]))
    && (forall i :: 0 <= i < |rows| && Observed(rows[i]) ==>
          KeyOf(rows[i]) in pairs && rows[i].arm in pairs[KeyOf(rows[i])])
    && (forall key :: key in pairs ==> exists arm :: arm in pairs[key])
  }

  predicate Complete(pairs: Pairs, key: Key) {
    key in pairs && "on" in pairs[key] && "off" in pairs[key] && forall arm :: arm in pairs[key] ==> arm == "on" || arm == "off"
  }

  datatype Outcome = Win | Loss | Tie

  function OutcomeOf(on: Retained, off: Retained): Outcome {
    if on.truth == off.truth then Tie else if on.truth == Pass then Win else Loss
  }

  predicate Qualifies(on: Retained, off: Retained) {
    on.hooksSatisfied && off.hooksSatisfied
  }

  // Ways of looking at a comparison.
  datatype Contrast = Whole | Came(outcome: Outcome) | Enhanced | Plain | CameEnhanced(outcome: Outcome) | PassedOn | PassedOff | PassedBoth | CamePlain(outcome: Outcome) | Never

  predicate Shows(pairs: Pairs, key: Key, c: Contrast) {
    && key in pairs && pairs[key].Keys == {"on", "off"}
    && var on, off := pairs[key]["on"], pairs[key]["off"];
       match c
       case Whole => true
       case Came(o) => Turns(on, off, o)
       case Enhanced => on.hooksSatisfied && off.hooksSatisfied
       case Plain => !on.hooksSatisfied || !off.hooksSatisfied
       case CameEnhanced(o) => on.hooksSatisfied && off.hooksSatisfied && Turns(on, off, o)
       case PassedOn => on.truth == Pass
       case PassedOff => off.truth == Pass
       case PassedBoth => on.truth == Pass && off.truth == Pass
       case CamePlain(o) => !(on.hooksSatisfied && off.hooksSatisfied) && Turns(on, off, o)
       case Never => false
  }

  // The comparison comes to o.
  predicate Turns(on: Retained, off: Retained, o: Outcome) {
    match o
    case Win => on.truth != off.truth && on.truth == Pass
    case Loss => on.truth != off.truth && on.truth != Pass
    case Tie => on.truth == off.truth
  }

  lemma {:induction false} CompleteHasBothArms(pairs: Pairs, key: Key)
    ensures Complete(pairs, key) <==> key in pairs && pairs[key].Keys == {"on", "off"}
  {
    if key in pairs {
      assert forall arm :: arm in pairs[key].Keys <==> arm in pairs[key];
    }
  }

  lemma {:induction false} ObservedIsSeen(r: Row)
    ensures Observed(r) <==> Matches(r, Seen)
  {
  }

  // Complete comparisons of a feature under a contrast.
  function Comparisons(pairs: Pairs, keys: set<Key>, feature: string, c: Contrast): set<Key> {
    set k | k in keys && k.feature == feature && Shows(pairs, k, c)
  }

  ghost predicate CountsRows(g: Counters, rows: seq<Row>, feature: string) {
    && g.enrolled == Tally(rows, feature, Any)
    && g.ittPass == Tally(rows, feature, Intends(Pass))
    && g.ittFail == Tally(rows, feature, Intends(Fail))
    && g.ittUnknown == Tally(rows, feature, Intends(Unknown))
    && g.observed == Tally(rows, feature, Seen)
    && g.gaps == Tally(rows, feature, Gapped)
    && g.pass == Tally(rows, feature, SeenAs(Pass))
    && g.fail == Tally(rows, feature, SeenAs(Fail))
  }

  ghost predicate CountsPairs(g: Counters, pairs: Pairs, keys: set<Key>, feature: string) {
    && g.wins == |Comparisons(pairs, keys, feature, Came(Win))|
    && g.losses == |Comparisons(pairs, keys, feature, Came(Loss))|
    && g.ties == |Comparisons(pairs, keys, feature, Came(Tie))|
    && g.qualified == |Comparisons(pairs, keys, feature, Enhanced)|
    && g.unqualified == |Comparisons(pairs, keys, feature, Plain)|
    && g.qualifiedWins == |Comparisons(pairs, keys, feature, CameEnhanced(Win))|
    && g.qualifiedLosses == |Comparisons(pairs, keys, feature, CameEnhanced(Loss))|
    && g.qualifiedTies == |Comparisons(pairs, keys, feature, CameEnhanced(Tie))|
  }

  // ----- Conservation -----

  lemma {:induction false} OneIntent(r: Row)
    ensures (Matches(r, Intends(Pass)) || Matches(r, Intends(Fail)) || Matches(r, Intends(Unknown)))
    ensures !(Matches(r, Intends(Pass)) && Matches(r, Intends(Fail)))
    ensures !(Matches(r, Intends(Unknown)) && (Matches(r, Intends(Pass)) || Matches(r, Intends(Fail))))
  {
    if r.result.Some? && r.result.value.taskTruth.Some? {
      match r.result.value.taskTruth.value case Pass => case Fail => case Unknown =>
    }
  }

  lemma {:induction false} TalliesBalance(rows: seq<Row>, feature: string)
    ensures Tally(rows, feature, Any)
         == Tally(rows, feature, Intends(Pass)) + Tally(rows, feature, Intends(Fail))
            + Tally(rows, feature, Intends(Unknown))
    ensures Tally(rows, feature, Any)
         == Tally(rows, feature, Seen) + Tally(rows, feature, Gapped)
    ensures Tally(rows, feature, Seen)
         == Tally(rows, feature, SeenAs(Pass))
            + Tally(rows, feature, SeenAs(Fail))
  {
    if rows != [] {
      OneIntent(rows[|rows| - 1]);
      TalliesBalance(rows[..|rows| - 1], feature);
    }
  }

  // Unknown truths never enter the table.
  ghost predicate Decided(pairs: Pairs) {
    forall key, arm :: key in pairs && arm in pairs[key] ==> pairs[key][arm].truth == Pass || pairs[key][arm].truth == Fail
  }

  lemma {:induction false} ComparedWhen(pairs: Pairs, keys: set<Key>, feature: string, c: Contrast, k: Key)
    ensures k in Comparisons(pairs, keys, feature, c) <==> k in keys && k.feature == feature && Shows(pairs, k, c)
  {
    hide Shows;
  }

  // Three contrasts that split a fourth key by key split its count.
  lemma {:induction false} Splits(pairs: Pairs, keys: set<Key>, feature: string, whole: Contrast, a: Contrast, b: Contrast, c: Contrast)
    requires forall k :: k in keys ==> (Shows(pairs, k, whole) <==> Shows(pairs, k, a) || Shows(pairs, k, b) || Shows(pairs, k, c))
    requires forall k :: k in keys ==> !(Shows(pairs, k, a) && Shows(pairs, k, b))
    requires forall k :: k in keys ==> !(Shows(pairs, k, c) && (Shows(pairs, k, a) || Shows(pairs, k, b)))
    ensures |Comparisons(pairs, keys, feature, whole)|
         == |Comparisons(pairs, keys, feature, a)| + |Comparisons(pairs, keys, feature, b)| + |Comparisons(pairs, keys, feature, c)|
  {
    hide Shows, Comparisons;
    var w, x, y, z := Comparisons(pairs, keys, feature, whole), Comparisons(pairs, keys, feature, a),
                      Comparisons(pairs, keys, feature, b), Comparisons(pairs, keys, feature, c);
    forall k
      ensures k in w <==> k in x || k in y || k in z
      ensures !(k in x && k in y) && !(k in z && (k in x || k in y))
    {
      ComparedWhen(pairs, keys, feature, whole, k);
      ComparedWhen(pairs, keys, feature, a, k);
      ComparedWhen(pairs, keys, feature, b, k);
      ComparedWhen(pairs, keys, feature, c, k);
    }
    ThreeWay(w, x, y, z);
  }

  lemma {:induction false} ThreeWay<T>(w: set<T>, x: set<T>, y: set<T>, z: set<T>)
    requires forall k :: k in w <==> k in x || k in y || k in z
    requires forall k :: !(k in x && k in y) && !(k in z && (k in x || k in y))
    ensures |w| == |x| + |y| + |z|
  {
    assert w == (x + y) + z;
    assert x !! y && (x + y) !! z;
  }

  lemma {:induction false} NeverShows(pairs: Pairs, keys: set<Key>, feature: string)
    ensures |Comparisons(pairs, keys, feature, Never)| == 0
  {
    assert Comparisons(pairs, keys, feature, Never) == {};
  }

  lemma {:induction false} OutcomesBalance(pairs: Pairs, keys: set<Key>, feature: string)
    ensures |Comparisons(pairs, keys, feature, Whole)| == |Comparisons(pairs, keys, feature, Came(Win))|
              + |Comparisons(pairs, keys, feature, Came(Loss))| + |Comparisons(pairs, keys, feature, Came(Tie))|
    ensures |Comparisons(pairs, keys, feature, Enhanced)| == |Comparisons(pairs, keys, feature, CameEnhanced(Win))|
              + |Comparisons(pairs, keys, feature, CameEnhanced(Loss))| + |Comparisons(pairs, keys, feature, CameEnhanced(Tie))|
    ensures |Comparisons(pairs, keys, feature, Whole)|
         == |Comparisons(pairs, keys, feature, Enhanced)| + |Comparisons(pairs, keys, feature, Plain)|
  {
    hide Comparisons, Complete;
    Splits(pairs, keys, feature, Whole, Came(Win), Came(Loss), Came(Tie));
    Splits(pairs, keys, feature, Enhanced, CameEnhanced(Win), CameEnhanced(Loss), CameEnhanced(Tie));
    Splits(pairs, keys, feature, Whole, Enhanced, Plain, Never);
    NeverShows(pairs, keys, feature);
  }

  lemma {:induction false} DifferenceBalances(pairs: Pairs, keys: set<Key>, feature: string)
    requires Decided(pairs)
    ensures |Comparisons(pairs, keys, feature, Came(Win))| - |Comparisons(pairs, keys, feature, Came(Loss))|
         == |Comparisons(pairs, keys, feature, PassedOn)| - |Comparisons(pairs, keys, feature, PassedOff)|
  {
    hide Comparisons;
    Splits(pairs, keys, feature, PassedOn, Came(Win), PassedBoth, Never);
    Splits(pairs, keys, feature, PassedOff, Came(Loss), PassedBoth, Never);
    NeverShows(pairs, keys, feature);
  }

  lemma {:induction false} EnhancedWithin(pairs: Pairs, keys: set<Key>, feature: string, o: Outcome)
    ensures |Comparisons(pairs, keys, feature, CameEnhanced(o))| <= |Comparisons(pairs, keys, feature, Came(o))|
  {
    hide Comparisons, Complete;
    Splits(pairs, keys, feature, Came(o), CameEnhanced(o), CamePlain(o), Never);
  }

  // ----- The reducer -----

  // The first loop's counting of one row.
  function CountRow(g: Counters, r: Row): Counters {
    var g1 := g.(enrolled := g.enrolled + 1);
    var g2 := match IntentTruth(r)
              case Pass => g1.(ittPass := g1.ittPass + 1)
              case Fail => g1.(ittFail := g1.ittFail + 1)
              case Unknown => g1.(ittUnknown := g1.ittUnknown + 1);
    if !Observed(r) then g2.(gaps := g2.gaps + 1)
    else if r.result.value.truth == Pass then g2.(observed := g2.observed + 1, pass := g2.pass + 1)
    else g2.(observed := g2.observed + 1, fail := g2.fail + 1)
  }

  // The second loop's counting of one complete comparison.
  function CountPair(g: Counters, on: Retained, off: Retained): Counters {
    var outcome := OutcomeOf(on, off);
    var g1 := match outcome
              case Win => g.(wins := g.wins + 1)
              case Loss => g.(losses := g.losses + 1)
              case Tie => g.(ties := g.ties + 1);
    if !Qualifies(on, off) then g1.(unqualified := g1.unqualified + 1)
    else
      var g2 := g1.(qualified := g1.qualified + 1);
      match outcome
      case Win => g2.(qualifiedWins := g2.qualifiedWins + 1)
      case Loss => g2.(qualifiedLosses := g2.qualifiedLosses + 1)
      case Tie => g2.(qualifiedTies := g2.qualifiedTies + 1)
  }

  lemma {:induction false} RowCounted(g: Counters, rows: seq<Row>, r: Row, feature: string)
    requires CountsRows(g, rows, feature)
    ensures CountsRows(if r.feature == feature then CountRow(g, r) else g, rows + [r], feature)
  {
    assert (rows + [r])[..|rows|] == rows;
  }

  lemma {:induction false} NoRows(rows: seq<Row>, feature: string)
    requires forall i :: 0 <= i < |rows| ==> rows[i].feature != feature
    ensures CountsRows(ZERO, rows, feature)
  {
    if rows != [] {
      NoRows(rows[..|rows| - 1], feature);
    }
  }

  lemma {:induction false} KeyAdded(pairs: Pairs, done: set<Key>, k: Key, feature: string, c: Contrast)
    requires k !in done
    ensures |Comparisons(pairs, done + {k}, feature, c)|
         == |Comparisons(pairs, done, feature, c)| + if k.feature == feature && Shows(pairs, k, c) then 1 else 0
  {
    hide Shows;
    var before, after := Comparisons(pairs, done, feature, c), Comparisons(pairs, done + {k}, feature, c);
    if k.feature == feature && Shows(pairs, k, c) {
      assert after == before + {k};
    } else {
      assert after == before;
    }
  }

  lemma {:induction false} PairCounted(g: Counters, pairs: Pairs, done: set<Key>, k: Key, feature: string)
    requires CountsPairs(g, pairs, done, feature) && k !in done && k in pairs
    ensures CountsPairs(if k.feature == feature && Complete(pairs, k) then CountPair(g, pairs[k]["on"], pairs[k]["off"]) else g,
                        pairs, done + {k}, feature)
  {
    hide Comparisons;
    CompleteHasBothArms(pairs, k);
    KeyAdded(pairs, done, k, feature, Came(Win));
    KeyAdded(pairs, done, k, feature, Came(Loss));
    KeyAdded(pairs, done, k, feature, Came(Tie));
    KeyAdded(pairs, done, k, feature, Enhanced);
    KeyAdded(pairs, done, k, feature, Plain);
    KeyAdded(pairs, done, k, feature, CameEnhanced(Win));
    KeyAdded(pairs, done, k, feature, CameEnhanced(Loss));
    KeyAdded(pairs, done, k, feature, CameEnhanced(Tie));
  }

  predicate NoPairsYet(g: Counters) {
    && g.wins == 0 && g.losses == 0 && g.ties == 0 && g.qualified == 0 && g.unqualified == 0
    && g.qualifiedWins == 0 && g.qualifiedLosses == 0 && g.qualifiedTies == 0
  }

  // The per-feature counters after some rows; a feature without rows has none.
  ghost predicate GroupsRows(groups: map<string, Counters>, rows: seq<Row>) {
    forall f :: GroupRows(groups, rows, f)
  }

  ghost predicate GroupRows(groups: map<string, Counters>, rows: seq<Row>, f: string) {
    && CountsRows(if f in groups then groups[f] else ZERO, rows, f)
    && (f in groups ==> NoPairsYet(groups[f]))
    && (f in groups <==> exists i :: 0 <= i < |rows| && rows[i].feature == f)
  }

  lemma {:induction false} GroupNext(groups: map<string, Counters>, rows: seq<Row>, r: Row)
    requires GroupsRows(groups, rows)
    ensures GroupsRows(groups[r.feature := CountRow(if r.feature in groups then groups[r.feature] else ZERO, r)], rows + [r])
  {
    var g := if r.feature in groups then groups[r.feature] else ZERO;
    var groups' := groups[r.feature := CountRow(g, r)];
    forall f ensures GroupRows(groups', rows + [r], f) {
      assert GroupRows(groups, rows, f);
      RowCounted(if f in groups then groups[f] else ZERO, rows, r, f);
      assert (rows + [r])[|rows|] == r;
      if f in groups {
        var i :| 0 <= i < |rows| && rows[i].feature == f;
        assert (rows + [r])[i].feature == f;
      }
    }
  }

  function Joined(pairs: Pairs, r: Row): Pairs
    requires Observed(r)
  {
    pairs[KeyOf(r) := (if KeyOf(r) in pairs then pairs[KeyOf(r)] else map[])[r.arm := r.result.value]]
  }

  predicate Taken(pairs: Pairs, r: Row) {
    KeyOf(r) in pairs && r.arm in pairs[KeyOf(r)]
  }

  lemma {:induction false} HasArmMore(rows: seq<Row>, r: Row, key: Key, arm: string, result: Retained)
    requires HasArm(rows, key, arm, result)
    ensures HasArm(rows + [r], key, arm, result)
  {
    var i :| 0 <= i < |rows| && Observed(rows[i]) && KeyOf(rows[i]) == key && rows[i].arm == arm && rows[i].result == Some(result);
    assert (rows + [r])[i] == rows[i];
  }

  lemma {:induction false} HasArmLast(rows: seq<Row>, r: Row)
    requires Observed(r)
    ensures HasArm(rows + [r], KeyOf(r), r.arm, r.result.value)
  {
    assert (rows + [r])[|rows|] == r;
  }

  lemma {:induction false} TableNext(pairs: Pairs, rows: seq<Row>, r: Row)
    requires Tabulates(pairs, rows)
    ensures Tabulates(if Observed(r) then Joined(pairs, r) else pairs, rows + [r])
  {
    hide KeyOf, HasArm;
    var pairs' := if Observed(r) then Joined(pairs, r) else pairs;
    var rows' := rows + [r];
    forall key, arm | key in pairs' && arm in pairs'[key] ensures HasArm(rows', key, arm, pairs'[key][arm]) {
      if Observed(r) && key == KeyOf(r) && arm == r.arm {
        HasArmLast(rows, r);
      } else {
        HasArmMore(rows, r, key, arm, pairs[key][arm]);
      }
    }
    forall i | 0 <= i < |rows'| && Observed(rows'[i]) ensures Taken(pairs', rows'[i]) {
      if i < |rows| {
        assert rows'[i] == rows[i];
      }
    }
    forall key | key in pairs' ensures exists arm :: arm in pairs'[key] {
      if Observed(r) && key == KeyOf(r) {
        assert r.arm in pairs'[key];
      }
    }
  }

  lemma {:induction false} ClashIs(rows: seq<Row>, i: int, n: nat)
    requires n < |rows| && Observed(rows[n])
    ensures Clash(rows, i, n) <==>
            0 <= i < n && Observed(rows[i]) && KeyOf(rows[i]) == KeyOf(rows[n]) && rows[i].arm == rows[n].arm
  {
  }

  // The table refuses a row exactly when it clashes with an earlier one.
  lemma {:induction false} TakenIsClash(pairs: Pairs, rows: seq<Row>, n: nat)
    requires n < |rows| && Tabulates(pairs, rows[..n]) && Observed(rows[n])
    ensures Taken(pairs, rows[n]) <==> exists i :: Clash(rows, i, n)
  {
    hide KeyOf, Observed, Matches, Clash;
    forall i {
      ClashIs(rows, i, n);
    }
    if Taken(pairs, rows[n]) {
      var key, arm := KeyOf(rows[n]), rows[n].arm;
      assert HasArm(rows[..n], key, arm, pairs[key][arm]);
      var i :| 0 <= i < n && Observed(rows[..n][i]) && KeyOf(rows[..n][i]) == key && rows[..n][i].arm == arm;
      assert Clash(rows, i, n);
    }
    if i :| Clash(rows, i, n) {
      assert rows[..n][i] == rows[i];
    }
  }

  datatype Reduction = Reduction(groups: map<string, Counters>, pairs: Pairs)

  // The first loop.
  method ReduceRows(rows: seq<Row>) returns (r: Result<Reduction>)
    ensures r.Success? <==> forall i, j :: !Clash(rows, i, j)
    ensures r.Success? ==> GroupsRows(r.value.groups, rows) && Tabulates(r.value.pairs, rows)
  {
    hide GroupsRows, Tabulates;
    var groups: map<string, Counters> := map[];
    var pairs: Pairs := map[];
    NothingReduced();
    for n := 0 to |rows|
      invariant GroupsRows(groups, rows[..n]) && Tabulates(pairs, rows[..n])
      invariant forall i, j :: j < n ==> !Clash(rows, i, j)
    {
      var row := rows[n];
      assert rows[..n + 1] == rows[..n] + [row];
      GroupNext(groups, rows[..n], row);
      groups := groups[row.feature := CountRow(if row.feature in groups then groups[row.feature] else ZERO, row)];
      TableNext(pairs, rows[..n], row);
      if Observed(row) {
        TakenIsClash(pairs, rows, n);
        if Taken(pairs, row) {
          return Failure("duplicate comparison arm; explicit contrast identity required");
        }
        pairs := Joined(pairs, row);
      }
    }
    assert rows[..|rows|] == rows;
    return Success(Reduction(groups, pairs));
  }

  lemma {:induction false} NothingReduced()
    ensures GroupsRows(map[], []) && Tabulates(map[], [])
  {
    forall f ensures GroupRows(map[], [], f) {
    }
  }

  ghost predicate SameRows(g: Counters, h: Counters) {
    && g.enrolled == h.enrolled && g.ittPass == h.ittPass && g.ittFail == h.ittFail && g.ittUnknown == h.ittUnknown
    && g.observed == h.observed && g.gaps == h.gaps && g.pass == h.pass && g.fail == h.fail
  }

  // The comparisons taken in so far are counted; the row counters are as the first loop left them.
  ghost predicate PairsDone(groups: map<string, Counters>, r: map<string, Counters>, pairs: Pairs, done: set<Key>) {
    && (forall f :: f in r <==> f in groups)
    && forall f :: f in r ==> SameRows(r[f], groups[f]) && CountsPairs(r[f], pairs, done, f)
  }

  function PairNext(r: map<string, Counters>, pairs: Pairs, k: Key): map<string, Counters>
    requires k in pairs && k.feature in r
  {
    if Complete(pairs, k) then r[k.feature := CountPair(r[k.feature], pairs[k]["on"], pairs[k]["off"])] else r
  }

  lemma {:induction false} PairNextDone(groups: map<string, Counters>, r: map<string, Counters>, pairs: Pairs, done: set<Key>, k: Key)
    requires PairsDone(groups, r, pairs, done) && k in pairs && k !in done && k.feature in r
    ensures PairsDone(groups, PairNext(r, pairs, k), pairs, done + {k})
  {
    hide CountsPairs;
    var r' := PairNext(r, pairs, k);
    forall f | f in r' ensures SameRows(r'[f], groups[f]) && CountsPairs(r'[f], pairs, done + {k}, f) {
      PairCounted(r[f], pairs, done, k, f);
    }
  }

  lemma {:induction false} PairsStart(groups: map<string, Counters>, pairs: Pairs)
    requires forall f :: f in groups ==> NoPairsYet(groups[f])
    ensures PairsDone(groups, groups, pairs, {})
  {
    forall f | f in groups ensures CountsPairs(groups[f], pairs, {}, f) {
      NoKeys(pairs, f);
    }
  }

  // The second loop.
  method ReducePairs(groups: map<string, Counters>, pairs: Pairs) returns (r: map<string, Counters>)
    requires forall k :: k in pairs ==> k.feature in groups
    requires forall f :: f in groups ==> NoPairsYet(groups[f])
    ensures PairsDone(groups, r, pairs, pairs.Keys)
  {
    hide CountsPairs, Complete, CountPair;
    r := groups;
    var rest := pairs.Keys;
    ghost var done: set<Key> := {};
    PairsStart(groups, pairs);
    while rest != {}
      invariant done !! rest && done + rest == pairs.Keys
      invariant PairsDone(groups, r, pairs, done)
      decreases |rest|
    {
      Inhabited(rest);
      var k :| k in rest;
      assert k in pairs;
      PairNextDone(groups, r, pairs, done, k);
      rest, done := rest - {k}, done + {k};
      r := PairNext(r, pairs, k);
    }
    assert done == pairs.Keys;
  }

  lemma {:induction false} NoKeys(pairs: Pairs, feature: string)
    ensures forall c :: |Comparisons(pairs, {}, feature, c)| == 0
  {
    forall c ensures |Comparisons(pairs, {}, feature, c)| == 0 {
      assert Comparisons(pairs, {}, feature, c) == {};
    }
  }

  // Nothing is lost between the counters of a feature.
  predicate Balanced(g: Counters) {
    && g.enrolled == g.ittPass + g.ittFail + g.ittUnknown
    && g.enrolled == g.observed + g.gaps
    && g.observed == g.pass + g.fail
    && g.wins + g.losses + g.ties == g.qualified + g.unqualified
    && g.qualified == g.qualifiedWins + g.qualifiedLosses + g.qualifiedTies
    && g.qualifiedWins <= g.wins && g.qualifiedLosses <= g.losses && g.qualifiedTies <= g.ties
  }

  lemma {:induction false} CountedIsBalanced(g: Counters, rows: seq<Row>, pairs: Pairs, feature: string)
    requires CountsRows(g, rows, feature) && CountsPairs(g, pairs, pairs.Keys, feature) && Tabulates(pairs, rows)
    ensures Balanced(g)
    ensures g.wins + g.losses + g.ties == |Comparisons(pairs, pairs.Keys, feature, Whole)|
    ensures g.wins - g.losses
         == |Comparisons(pairs, pairs.Keys, feature, PassedOn)| - |Comparisons(pairs, pairs.Keys, feature, PassedOff)|
  {
    hide Comparisons, Tally;
    TalliesBalance(rows, feature);
    OutcomesBalance(pairs, pairs.Keys, feature);
    assert Decided(pairs) by {
      forall key, arm | key in pairs && arm in pairs[key] ensures pairs[key][arm].truth != Unknown {
        assert HasArm(rows, key, arm, pairs[key][arm]);
      }
    }
    DifferenceBalances(pairs, pairs.Keys, feature);
    EnhancedWithin(pairs, pairs.Keys, feature, Win);
    EnhancedWithin(pairs, pairs.Keys, feature, Loss);
    EnhancedWithin(pairs, pairs.Keys, feature, Tie);
  }

  // Fails exactly on competing rows; otherwise every feature's counters are the counts they are
  // named for, and balance.
  method Reduce(rows: seq<Row>) returns (r: Result<Reduction>)
    ensures r.Success? <==> forall i, j :: !Clash(rows, i, j)
    ensures r.Success? ==> Tabulates(r.value.pairs, rows)
    ensures r.Success? ==> forall f :: f in r.value.groups <==> exists i :: 0 <= i < |rows| && rows[i].feature == f
    ensures r.Success? ==> forall f :: f in r.value.groups ==>
      && CountsRows(r.value.groups[f], rows, f) && CountsPairs(r.value.groups[f], r.value.pairs, r.value.pairs.Keys, f)
      && Balanced(r.value.groups[f])
  {
    r := ReduceRows(rows);
    if r.Failure? {
      return;
    }
    var groups, pairs := r.value.groups, r.value.pairs;
    forall f
      ensures f in groups ==> NoPairsYet(groups[f])
      ensures f in groups <==> exists i :: 0 <= i < |rows| && rows[i].feature == f
    {
      assert GroupRows(groups, rows, f);
    }
    forall k | k in pairs ensures k.feature in groups {
      var arm :| arm in pairs[k];
      assert HasArm(rows, k, arm, pairs[k][arm]);
    }
    var reduced := ReducePairs(groups, pairs);
    forall f | f in reduced
      ensures CountsRows(reduced[f], rows, f) && Balanced(reduced[f])
    {
      assert GroupRows(groups, rows, f);
      CountedIsBalanced(reduced[f], rows, pairs, f);
    }
    return Success(Reduction(reduced, pairs));
  }
}
