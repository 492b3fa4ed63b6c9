// validate_context_pairs (scripts/judgement-study-live.py): the grouping loop and its verdict.
module StudyPairs {
  import opened Wrappers
  import opened StudyProtocol

  predicate Paired(t: Trial) {
    t.adapter == Context && !t.gap
  }

  // The admitted context trials of one pair identity, in order.
  predicate Lists(trials: seq<Trial>, n: nat, id: string, members: seq<nat>)
    requires n <= |trials|
  {
    && (forall k :: 0 <= k < n ==> (InPair(trials[k], id) <==> k in members))
    && (forall a :: 0 <= a < |members| ==> members[a] < n)
    && forall a, b :: 0 <= a < b < |members| ==> members[a] < members[b]
  }

  predicate Shares(a: Trial, b: Trial) {
    && {a.arm, b.arm} == {"off", "on"}
    && a.jobFile == b.jobFile && a.jobHash == b.jobHash && a.reportFile == b.reportFile && a.receiptFile == b.receiptFile
    && a.caseId == b.caseId && a.repetition == b.repetition
  }

  lemma {:induction false} PartnersIff(trials: seq<Trial>, i: nat, id: string, members: seq<nat>)
    requires i < |trials| && InPair(trials[i], id) && Lists(trials, |trials|, id, members)
    ensures (exists j: nat :: Partners(trials, i, j)) <==> |members| == 2 && Shares(trials[members[0]], trials[members[1]])
  {
    assert i in members;
    if |members| == 2 && Shares(trials[members[0]], trials[members[1]]) {
      var j := if members[0] == i then members[1] else members[0];
      assert Partners(trials, i, j);
    }
    if j: nat :| Partners(trials, i, j) {
      assert InPair(trials[j], id);
      assert j in members;
      assert forall k :: k in members ==> k == i || k == j;
      ThirdIsNeither(members, i, j);
      forall a | 0 <= a < |members| ensures members[a] == i || members[a] == j {
        assert members[a] in members;
      }
      assert |members| == 2;
    }
  }

  lemma {:induction false} ListsNext(trials: seq<Trial>, n: nat, id: string, members: seq<nat>)
    requires n < |trials| && Lists(trials, n, id, members)
    ensures Lists(trials, n + 1, id, members + if InPair(trials[n], id) then [n] else [])
  {
    var members' := members + if InPair(trials[n], id) then [n] else [];
    forall k | 0 <= k < n + 1 ensures InPair(trials[k], id) <==> k in members' {
      if k == n {
        assert n !in members;
      } else {
        assert k in members' <==> k in members;
      }
    }
  }

  lemma {:induction false} ThirdIsNeither(members: seq<nat>, i: nat, j: nat)
    requires forall a, b :: 0 <= a < b < |members| ==> members[a] < members[b]
    ensures |members| > 2 ==> exists a :: 0 <= a < |members| && members[a] != i && members[a] != j
  {
    if |members| > 2 {
      assert members[0] < members[1] < members[2];
    }
  }

  function Group(pairs: map<string, seq<nat>>, id: string): seq<nat> {
    if id in pairs then pairs[id] else []
  }

  // The groups hold the admitted context trials among the first n.
  ghost predicate Grouped(trials: seq<Trial>, n: nat, pairs: map<string, seq<nat>>)
    requires n <= |trials|
  {
    && (forall id :: Lists(trials, n, id, Group(pairs, id)))
    && (forall id :: id in pairs ==> pairs[id] != [])
    && forall i :: 0 <= i < n && Paired(trials[i]) ==>
         trials[i].pairId.Some? && trials[i].pairId.value != "" && trials[i].pairId.value in pairs
  }

  lemma {:induction false} GroupedNext(trials: seq<Trial>, n: nat, pairs: map<string, seq<nat>>)
    requires n < |trials| && Grouped(trials, n, pairs)
    requires Paired(trials[n]) ==> trials[n].pairId.Some? && trials[n].pairId.value != ""
    ensures var t := trials[n];
            Grouped(trials, n + 1, if Paired(t) then pairs[t.pairId.value := Group(pairs, t.pairId.value) + [n]] else pairs)
  {
    var t := trials[n];
    var pairs' := if Paired(t) then pairs[t.pairId.value := Group(pairs, t.pairId.value) + [n]] else pairs;
    forall id ensures Lists(trials, n + 1, id, Group(pairs', id)) {
      ListsNext(trials, n, id, Group(pairs, id));
      assert Group(pairs', id) == Group(pairs, id) + if InPair(t, id) then [n] else [];
    }
  }

  predicate GroupOk(trials: seq<Trial>, members: seq<nat>) {
    |members| == 2 && members[0] < |trials| && members[1] < |trials| && Shares(trials[members[0]], trials[members[1]])
  }

  lemma {:induction false} GroupsDecide(trials: seq<Trial>, pairs: map<string, seq<nat>>)
    requires Grouped(trials, |trials|, pairs)
    ensures ValidPairs(trials) <==> forall id :: id in pairs ==> GroupOk(trials, pairs[id])
  {
    forall i | 0 <= i < |trials| && Paired(trials[i])
      ensures (exists j: nat :: Partners(trials, i, j)) <==> GroupOk(trials, pairs[trials[i].pairId.value])
    {
      var id := trials[i].pairId.value;
      assert Lists(trials, |trials|, id, Group(pairs, id));
      PartnersIff(trials, i, id, pairs[id]);
    }
    forall id | id in pairs ensures exists i :: 0 <= i < |trials| && Paired(trials[i]) && trials[i].pairId == Some(id) {
      assert Lists(trials, |trials|, id, Group(pairs, id));
      var i := pairs[id][0];
      assert i in pairs[id];
    }
  }

  // Accepts exactly the schedules whose admitted context trials come in well-formed pairs.
  method ValidateContextPairs(trials: seq<Trial>) returns (ok: bool)
    ensures ok <==> ValidPairs(trials)
  {
    hide Grouped;
    var pairs: map<string, seq<nat>> := map[];
    NothingGrouped(trials);
    for n := 0 to |trials|
      invariant Grouped(trials, n, pairs)
    {
      var t := trials[n];
      if Paired(t) && (t.pairId.None? || t.pairId.value == "") {
        return false;
      }
      GroupedNext(trials, n, pairs);
      if Paired(t) {
        pairs := pairs[t.pairId.value := Group(pairs, t.pairId.value) + [n]];
      }
    }
    GroupsDecide(trials, pairs);
    return forall id :: id in pairs ==> GroupOk(trials, pairs[id]);
  }

  lemma {:induction false} NothingGrouped(trials: seq<Trial>)
    ensures Grouped(trials, 0, map[])
  {
  }
}
