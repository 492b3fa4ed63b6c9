// Ranking requests and the validation of ranking responses (scripts/judgement-navigation-live.py).
//
// For every request there is exactly one response that validates: the eligible sessions first,
// everything otherwise in the order given.
module RankResponse {
  import opened Collections
  import opened Wrappers

  datatype Session = Session(uuid: string)

  datatype Labels = Labels(sourceSequence: int, task: string, domain: string)

  // An observed card; no labels and an empty set of labels are the same.
  datatype Card = Card(session: Session, sourceSequence: int, labels: map<string, string>)

  datatype Candidate = Candidate(session: Session, sourceSequence: int, categorization: Option<Labels>)

  datatype Request = Request(task: Option<string>, domain: Option<string>, candidates: seq<Candidate>)

  datatype Response = Response(version: int, ordered: seq<Session>, matched: seq<Session>, applied: bool)

  function Sessions(cs: seq<Candidate>): (r: seq<Session>)
    ensures |r| == |cs| && forall i :: 0 <= i < |r| ==> r[i] == cs[i].session
  {
    seq(|cs|, i requires 0 <= i < |cs| => cs[i].session)
  }

  // ----- rank_request -----

  // The text of a UUID as it is printed: lower-case hexadecimal in groups of 8, 4, 4, 4 and 12.
  predicate Canonical(uuid: string) {
    |uuid| == 36 && forall i :: 0 <= i < 36 ==>
      if i == 8 || i == 13 || i == 18 || i == 23 then uuid[i] == '-'
      else '0' <= uuid[i] <= '9' || 'a' <= uuid[i] <= 'f'
  }

  // A UUID as its 32 hexadecimal digits, printed.
  function PrintUuid(digits: seq<nat>): (s: string)
    requires |digits| == 32 && forall i :: 0 <= i < 32 ==> digits[i] < 16
  {
    var hex := "0123456789abcdef";
    var at := (from: nat, to: nat) requires from <= to <= 32 => seq(to - from, i requires 0 <= i < to - from => hex[digits[from + i]]);
    at(0, 8) + "-" + at(8, 12) + "-" + at(12, 16) + "-" + at(16, 20) + "-" + at(20, 32)
  }

  // The canonical form is what printing some UUID gives.
  lemma {:induction false} CanonicalIsPrinted(uuid: string)
    ensures Canonical(uuid) <==>
            exists digits: seq<nat> :: |digits| == 32 && (forall i :: 0 <= i < 32 ==> digits[i] < 16) && uuid == PrintUuid(digits)
  {
    if Canonical(uuid) {
      var digits: seq<nat> := seq(32, i requires 0 <= i < 32 => DigitOf(uuid[Place(i)]));
      forall i | 0 <= i < 32 ensures digits[i] < 16 && "0123456789abcdef"[digits[i]] == uuid[Place(i)] {
        HexDigit(uuid[Place(i)]);
      }
      PrintedAt(digits);
      assert uuid == PrintUuid(digits);
    }
    if digits: seq<nat> :| |digits| == 32 && (forall i :: 0 <= i < 32 ==> digits[i] < 16) && uuid == PrintUuid(digits) {
      PrintedAt(digits);
      forall i | 0 <= i < 36 && i != 8 && i != 13 && i != 18 && i != 23
        ensures '0' <= uuid[i] <= '9' || 'a' <= uuid[i] <= 'f'
      {
        HexIsLower(digits[Index(i)]);
      }
    }
  }

  // Where a digit is printed, and which digit is printed at a place.
  function Place(i: nat): nat {
    if i < 8 then i else if i < 12 then i + 1 else if i < 16 then i + 2 else if i < 20 then i + 3 else i + 4
  }

  function Index(k: nat): nat {
    if k < 8 then k else if k < 13 then k - 1 else if k < 18 then k - 2 else if k < 23 then k - 3 else k - 4
  }

  function DigitOf(c: char): nat {
    if '0' <= c <= '9' then c as nat - '0' as nat else if 'a' <= c <= 'f' then c as nat - 'a' as nat + 10 else 16
  }

  lemma {:induction false} HexDigit(c: char)
    requires '0' <= c <= '9' || 'a' <= c <= 'f'
    ensures DigitOf(c) < 16 && "0123456789abcdef"[DigitOf(c)] == c
  {
    HexIsLower(DigitOf(c));
  }

  lemma {:induction false} HexIsLower(d: nat)
    requires d < 16
    ensures "0123456789abcdef"[d] == if d < 10 then '0' + d as char else 'a' + (d - 10) as char
  {
  }

  lemma {:induction false} PrintedAt(digits: seq<nat>)
    requires |digits| == 32 && forall i :: 0 <= i < 32 ==> digits[i] < 16
    ensures |PrintUuid(digits)| == 36
    ensures forall k :: 0 <= k < 36 ==>
              PrintUuid(digits)[k] == if k == 8 || k == 13 || k == 18 || k == 23 then '-' else "0123456789abcdef"[digits[Index(k)]]
  {
  }

  // A card of a canonical, activated session whose labels, where they are sent, are a task and a
  // domain; a source sequence among them is overwritten.
  predicate Admissible(card: Card, baseline: bool) {
    && Canonical(card.session.uuid)
    && card.sourceSequence > 0
    && (!baseline && |card.labels| > 0 ==>
          card.labels.Keys == {"task", "domain"} || card.labels.Keys == {"source_sequence", "task", "domain"})
  }

  function CandidateOf(card: Card, baseline: bool): Candidate
    requires Admissible(card, baseline)
  {
    Candidate(card.session, card.sourceSequence,
              if baseline || |card.labels| == 0 then None
              else Some(Labels(card.sourceSequence, card.labels["task"], card.labels["domain"])))
  }

  // Builds the request of distinct, activated sessions; a baseline carries no labels.
  method RankRequest(cards: seq<Card>, task: Option<string>, domain: Option<string>, baseline: bool) returns (r: Result<Request>)
    ensures r.Success? <==>
      (forall i :: 0 <= i < |cards| ==> Admissible(cards[i], baseline))
      && forall i, j :: 0 <= i < j < |cards| ==> cards[i].session != cards[j].session
    ensures r.Success? ==>
      && r.value.task == task && r.value.domain == domain && |r.value.candidates| == |cards|
      && Distinct(Sessions(r.value.candidates))
      && forall i :: 0 <= i < |cards| ==> r.value.candidates[i] == CandidateOf(cards[i], baseline)
  {
    hide Canonical, Elements;
    var candidates: seq<Candidate> := [];
    for n := 0 to |cards|
      invariant |candidates| == n && forall i :: 0 <= i < n ==>
        Admissible(cards[i], baseline) && candidates[i] == CandidateOf(cards[i], baseline)
    {
      var card := cards[n];
      if !Canonical(card.session.uuid) {
        return Failure("canonical session UUID required");
      }
      if card.sourceSequence <= 0 {
        return Failure("current activation required");
      }
      var category: Option<Labels> := None;
      if !baseline && card.labels != map[] {
        LabelFields(card.labels);
        if card.labels.Keys + {"source_sequence"} != {"source_sequence", "task", "domain"} {
          return Failure("unexpected label fields");
        }
        category := Some(Labels(card.sourceSequence, card.labels["task"], card.labels["domain"]));
      }
      candidates := candidates + [Candidate(card.session, card.sourceSequence, category)];
    }
    var sessions := Sessions(candidates);
    DistinctBySize(sessions);
    if |Elements(sessions)| != |candidates| {
      return Failure("duplicate session UUID");
    }
    return Success(Request(task, domain, candidates));
  }

  // Writing the source sequence into the labels leaves a task and a domain exactly when there are
  // no other fields.
  lemma {:induction false} LabelFields(labels: map<string, string>)
    ensures labels.Keys + {"source_sequence"} == {"source_sequence", "task", "domain"} <==>
            labels.Keys == {"task", "domain"} || labels.Keys == {"source_sequence", "task", "domain"}
    ensures labels.Keys + {"source_sequence"} == {"source_sequence", "task", "domain"} ==> "task" in labels && "domain" in labels
  {
    var all, both := {"source_sequence", "task", "domain"}, {"task", "domain"};
    assert "task" != "source_sequence" && "domain" != "source_sequence";
    if labels.Keys + {"source_sequence"} == all {
      assert "task" in all && "domain" in all;
      if "source_sequence" in labels {
        assert labels.Keys == labels.Keys + {"source_sequence"};
      } else {
        assert labels.Keys == all - {"source_sequence"} == both;
      }
    }
  }

  // ----- Eligibility and the ranking -----

  predicate Agrees(wanted: Option<string>, observed: string) {
    wanted.None? || (wanted.value != "other" && observed == wanted.value)
  }

  predicate Eligible(q: Request, c: Candidate) {
    && c.categorization.Some? && c.categorization.value.sourceSequence == c.sourceSequence
    && (q.task.Some? || q.domain.Some?)
    && Agrees(q.task, c.categorization.value.task) && Agrees(q.domain, c.categorization.value.domain)
  }

  // The candidates of one side, in order.
  function Side(q: Request, cs: seq<Candidate>, eligible: bool): seq<Candidate> {
    if cs == [] then []
    else
      var last := cs[|cs| - 1];
      Side(q, cs[..|cs| - 1], eligible) + if Eligible(q, last) == eligible then [last] else []
  }

  function Reordered(q: Request): seq<Candidate> {
    Side(q, q.candidates, true) + Side(q, q.candidates, false)
  }

  function Ranking(q: Request): Response {
    var ordered := Sessions(Reordered(q));
    Response(1, ordered, Sessions(Side(q, q.candidates, true)), ordered != Sessions(q.candidates))
  }

  lemma {:induction false} SideHolds(q: Request, cs: seq<Candidate>, eligible: bool, c: Candidate)
    ensures c in Side(q, cs, eligible) <==> c in cs && Eligible(q, c) == eligible
  {
    if cs != [] {
      var init, last := cs[..|cs| - 1], cs[|cs| - 1];
      SideHolds(q, init, eligible, c);
      assert cs == init + [last];
    }
  }

  lemma {:induction false} SidesCount(q: Request, cs: seq<Candidate>)
    ensures |Side(q, cs, true)| + |Side(q, cs, false)| == |cs|
  {
    if cs != [] {
      SidesCount(q, cs[..|cs| - 1]);
    }
  }

  // Where a candidate goes: behind the candidates of its side before it, and, if ineligible,
  // behind all eligible ones.
  lemma {:induction false} SideAt(q: Request, cs: seq<Candidate>, i: nat)
    requires i < |cs|
    ensures var side := Side(q, cs, Eligible(q, cs[i]));
            var at := |Side(q, cs[..i], Eligible(q, cs[i]))|;
            at <= i && at < |side| && side[at] == cs[i]
  {
    var n := |cs| - 1;
    SidesCount(q, cs[..i]);
    if i < n {
      SideAt(q, cs[..n], i);
      assert cs[..n][..i] == cs[..i];
    } else {
      assert cs[..i] == cs[..n];
    }
  }

  function PositionOf(q: Request, i: nat): (p: nat)
    requires i < |q.candidates|
  {
    var before := q.candidates[..i];
    if Eligible(q, q.candidates[i]) then |Side(q, before, true)|
    else |Side(q, q.candidates, true)| + |Side(q, before, false)|
  }

  lemma {:induction false} SideGrows(q: Request, cs: seq<Candidate>, i: nat, j: nat, eligible: bool)
    requires i < j <= |cs|
    ensures |Side(q, cs[..i], eligible)| + (if Eligible(q, cs[i]) == eligible then 1 else 0) <= |Side(q, cs[..j], eligible)|
    decreases j
  {
    assert cs[..j][..j - 1] == cs[..j - 1];
    if i < j - 1 {
      SideGrows(q, cs, i, j - 1, eligible);
    }
  }

  // The ranking is the stable partition: each session has its place, eligible sessions come before
  // the others and never later than they were, and the order within each side is kept.
  lemma {:induction false} Placed(q: Request, i: nat)
    requires i < |q.candidates|
    ensures |Ranking(q).ordered| == |q.candidates|
    ensures PositionOf(q, i) < |q.candidates| && Ranking(q).ordered[PositionOf(q, i)] == q.candidates[i].session
    ensures Eligible(q, q.candidates[i]) ==> PositionOf(q, i) <= i
    ensures Eligible(q, q.candidates[i]) <==> PositionOf(q, i) < |Side(q, q.candidates, true)|
  {
    hide Eligible;
    SidesCount(q, q.candidates);
    SideAt(q, q.candidates, i);
    hide Side;
  }

  lemma {:induction false} RankingIsStable(q: Request, i: nat, j: nat)
    requires i < j < |q.candidates|
    ensures |Ranking(q).ordered| == |q.candidates|
    ensures PositionOf(q, i) < |q.candidates| && Ranking(q).ordered[PositionOf(q, i)] == q.candidates[i].session
    ensures Eligible(q, q.candidates[i]) ==> PositionOf(q, i) <= i
    ensures Eligible(q, q.candidates[i]) == Eligible(q, q.candidates[j]) ==> PositionOf(q, i) < PositionOf(q, j)
    ensures Eligible(q, q.candidates[i]) && !Eligible(q, q.candidates[j]) ==> PositionOf(q, i) < PositionOf(q, j)
    ensures !Eligible(q, q.candidates[i]) && Eligible(q, q.candidates[j]) ==> PositionOf(q, j) < PositionOf(q, i)
  {
    hide Eligible, Side, Ranking;
    Placed(q, i);
    Placed(q, j);
    SideGrows(q, q.candidates, i, j, Eligible(q, q.candidates[i]));
  }

  // ----- validate_rank_response -----

  method EligibleSessions(q: Request) returns (eligible: seq<Session>)
    ensures eligible == Sessions(Side(q, q.candidates, true))
  {
    eligible := [];
    for n := 0 to |q.candidates|
      invariant eligible == Sessions(Side(q, q.candidates[..n], true))
    {
      assert q.candidates[..n + 1][..n] == q.candidates[..n];
      var c := q.candidates[n];
      var labelled := c.categorization.Some? && c.categorization.value.sourceSequence == c.sourceSequence;
      var asked := q.task != None || q.domain != None;
      if labelled && asked
         && (q.task == None || (q.task != Some("other") && Some(c.categorization.value.task) == q.task))
         && (q.domain == None || (q.domain != Some("other") && Some(c.categorization.value.domain) == q.domain))
      {
        eligible := eligible + [q.candidates[n].session];
      }
    }
    assert q.candidates[..|q.candidates|] == q.candidates;
  }

  method Unmatched(original: seq<Session>, matched: seq<Session>) returns (rest: seq<Session>)
    ensures rest == Without(original, matched)
  {
    rest := [];
    for n := 0 to |original|
      invariant rest == Without(original[..n], matched)
    {
      assert original[..n + 1][..n] == original[..n];
      if original[n] !in matched {
        rest := rest + [original[n]];
      }
    }
    assert original[..|original|] == original;
  }

  function Without(original: seq<Session>, matched: seq<Session>): seq<Session> {
    if original == [] then []
    else
      var last := original[|original| - 1];
      Without(original[..|original| - 1], matched) + if last in matched then [] else [last]
  }

  lemma {:induction false} MatchedIffEligible(q: Request, i: nat)
    requires i < |q.candidates| && Distinct(Sessions(q.candidates))
    ensures q.candidates[i].session in Sessions(Side(q, q.candidates, true)) <==> Eligible(q, q.candidates[i])
  {
    var cs, side := q.candidates, Side(q, q.candidates, true);
    SideHolds(q, cs, true, cs[i]);
    if Eligible(q, cs[i]) {
      var k :| 0 <= k < |side| && side[k] == cs[i];
      assert Sessions(side)[k] == cs[i].session;
    }
    if cs[i].session in Sessions(side) {
      var k :| 0 <= k < |side| && Sessions(side)[k] == cs[i].session;
      SideHolds(q, cs, true, side[k]);
      assert side[k] in side;
      var m :| 0 <= m < |cs| && cs[m] == side[k];
      assert Sessions(cs)[m] == Sessions(cs)[i];
    }
  }

  lemma {:induction false} WithoutMatchedIsOtherSide(q: Request, n: nat)
    requires n <= |q.candidates| && Distinct(Sessions(q.candidates))
    ensures Without(Sessions(q.candidates)[..n], Sessions(Side(q, q.candidates, true))) == Sessions(Side(q, q.candidates[..n], false))
  {
    if n > 0 {
      WithoutMatchedIsOtherSide(q, n - 1);
      MatchedIffEligible(q, n - 1);
      assert Sessions(q.candidates)[..n][..n - 1] == Sessions(q.candidates)[..n - 1];
      assert q.candidates[..n][..n - 1] == q.candidates[..n - 1];
    }
  }

  lemma {:induction false} SessionHeld(cs: seq<Candidate>, x: Session)
    ensures x in Sessions(cs) <==> exists c :: c in cs && c.session == x
  {
    if x in Sessions(cs) {
      var k :| 0 <= k < |cs| && Sessions(cs)[k] == x;
      assert cs[k] in cs;
    }
    if c :| c in cs && c.session == x {
      var k :| 0 <= k < |cs| && cs[k] == c;
      assert Sessions(cs)[k] == x;
    }
  }

  lemma {:induction false} RankingPermutes(q: Request)
    ensures |Ranking(q).ordered| == |q.candidates| && Elements(Ranking(q).ordered) == Elements(Sessions(q.candidates))
    ensures Elements(Ranking(q).matched) <= Elements(Sessions(q.candidates))
  {
    hide Eligible, Side, Sessions;
    var cs, all := q.candidates, Reordered(q);
    SidesCount(q, cs);
    forall c ensures c in all <==> c in cs {
      SideHolds(q, cs, true, c);
      SideHolds(q, cs, false, c);
    }
    forall x ensures x in Sessions(all) <==> x in Sessions(cs) {
      SessionHeld(all, x);
      SessionHeld(cs, x);
    }
    forall x | x in Ranking(q).matched ensures x in Sessions(cs) {
      SessionHeld(Side(q, cs, true), x);
      SessionHeld(cs, x);
      var c :| c in Side(q, cs, true) && c.session == x;
      SideHolds(q, cs, true, c);
    }
  }

  lemma {:induction false} MatchedDistinct(q: Request, cs: seq<Candidate>)
    requires Distinct(Sessions(cs))
    ensures Distinct(Sessions(Side(q, cs, true)))
  {
    if cs != [] {
      var init, last := cs[..|cs| - 1], cs[|cs| - 1];
      assert forall i :: 0 <= i < |init| ==> Sessions(init)[i] == Sessions(cs)[i];
      MatchedDistinct(q, init);
      var side := Side(q, init, true);
      forall k | 0 <= k < |side| ensures side[k].session != last.session {
        SideHolds(q, init, true, side[k]);
        assert side[k] in side;
        var m :| 0 <= m < |init| && init[m] == side[k];
        assert Sessions(cs)[m] != Sessions(cs)[|cs| - 1];
      }
    }
  }

  // Accepts exactly one response to each request of distinct sessions.
  method ValidateRankResponse(q: Request, r: Response) returns (ok: bool)
    requires Distinct(Sessions(q.candidates))
    ensures ok <==> r == Ranking(q)
  {
    hide Elements, Distinct, Side, Without, Sessions, Reordered;
    var original := Sessions(q.candidates);
    RankingPermutes(q);
    MatchedDistinct(q, q.candidates);
    RankingInSessions(q);
    if r.version != 1 {
      return false;
    }
    if |r.ordered| != |original| || Elements(r.ordered) != Elements(original) {
      return false;
    }
    if !Distinct(r.matched) || !(Elements(r.matched) <= Elements(original)) {
      return false;
    }
    var eligible := EligibleSessions(q);
    if r.matched != eligible {
      return false;
    }
    var rest := Unmatched(original, r.matched);
    return r.ordered == r.matched + rest && r.applied == (r.ordered != original);
  }

  lemma {:induction false} RankingInSessions(q: Request)
    requires Distinct(Sessions(q.candidates))
    ensures var original, matched := Sessions(q.candidates), Sessions(Side(q, q.candidates, true));
            var ordered := matched + Without(original, matched);
            Ranking(q) == Response(1, ordered, matched, ordered != original)
  {
    var original, n := Sessions(q.candidates), |q.candidates|;
    WithoutMatchedIsOtherSide(q, n);
    assert original[..n] == original && q.candidates[..n] == q.candidates;
    assert Sessions(Reordered(q)) == Sessions(Side(q, q.candidates, true)) + Sessions(Side(q, q.candidates, false));
  }

  // ----- Consequences -----

  lemma {:induction false} OneSided(q: Request, cs: seq<Candidate>, eligible: bool)
    requires forall i :: 0 <= i < |cs| ==> Eligible(q, cs[i]) == eligible
    ensures Side(q, cs, eligible) == cs && Side(q, cs, !eligible) == []
  {
    if cs != [] {
      OneSided(q, cs[..|cs| - 1], eligible);
    }
  }

  // A request without labels ranks nothing: the original order, unapplied.
  lemma {:induction false} BaselineIsUnapplied(q: Request)
    requires forall i :: 0 <= i < |q.candidates| ==> q.candidates[i].categorization.None?
    ensures Ranking(q) == Response(1, Sessions(q.candidates), [], false)
  {
    OneSided(q, q.candidates, false);
    assert [] + q.candidates == q.candidates;
  }

  lemma {:induction false} SideConcat(q: Request, a: seq<Candidate>, b: seq<Candidate>, eligible: bool)
    ensures Side(q, a + b, eligible) == Side(q, a, eligible) + Side(q, b, eligible)
  {
    if b == [] {
      assert a + b == a;
    } else {
      SideConcat(q, a, b[..|b| - 1], eligible);
      assert (a + b)[..|a + b| - 1] == a + b[..|b| - 1];
    }
  }

  // Ranking a ranked order changes nothing.
  lemma {:induction false} RankingIsIdempotent(q: Request)
    ensures var again := q.(candidates := Reordered(q));
            Reordered(again) == Reordered(q) && !Ranking(again).applied
  {
    var first, rest := Side(q, q.candidates, true), Side(q, q.candidates, false);
    var again := q.(candidates := Reordered(q));
    forall i | 0 <= i < |first| ensures Eligible(again, first[i]) {
      SideHolds(q, q.candidates, true, first[i]);
      assert first[i] in first;
    }
    forall i | 0 <= i < |rest| ensures !Eligible(again, rest[i]) {
      SideHolds(q, q.candidates, false, rest[i]);
      assert rest[i] in rest;
    }
    OneSided(again, first, true);
    OneSided(again, rest, false);
    SideConcat(again, first, rest, true);
    SideConcat(again, first, rest, false);
  }
}
