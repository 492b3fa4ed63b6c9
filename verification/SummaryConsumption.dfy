// Whether a request carries a summary (fixtures/evals/compaction/verify.py, summary_consumed).
//
// Protected user records are matched greedily against the request's user messages. The greedy
// scan loses nothing: it succeeds whenever any increasing choice of messages would.
module SummaryConsumption {
  import opened CanonicalLog
  import opened Text
  import opened Wrappers

  // The joined text of the request, and the body of each of its user messages.
  datatype Request = Request(text: string, bodies: seq<string>)

  datatype Evidence = Opaque(summary: string) | Protected(continuation: string, records: seq<string>)

  // Raised: a protected record has no ":\n" header separator.
  datatype Verdict = Consumed | NotConsumed | Raised

  predicate OccursAt(text: string, part: string, i: int) {
    0 <= i <= |text| - |part| && text[i..i + |part|] == part
  }

  predicate Contains(text: string, part: string) {
    exists i :: 0 <= i <= |text| && OccursAt(text, part, i)
  }

  // A text holds a part exactly when it is the part with something, or nothing, on either side.
  lemma {:induction false} ContainsIsPart(text: string, part: string)
    ensures Contains(text, part) <==> exists before, after :: text == before + (part + after)
  {
    if Contains(text, part) {
      var i :| 0 <= i <= |text| && OccursAt(text, part, i);
      assert text == text[..i] + (part + text[i + |part|..]);
    }
    if before, after :| text == before + (part + after) {
      assert text[|before|..|before| + |part|] == part;
      assert OccursAt(text, part, |before|);
    }
  }

  const SEPARATOR: string := ":\n"

  // Where the separator first occurs at or after a position, if it does.
  function FirstSeparator(record: string, from: nat): (r: Option<nat>)
    ensures r.Some? ==> from <= r.value && OccursAt(record, SEPARATOR, r.value)
    ensures r.Some? ==> forall j :: from <= j < r.value ==> !OccursAt(record, SEPARATOR, j)
    ensures r.None? ==> forall j :: from <= j ==> !OccursAt(record, SEPARATOR, j)
    decreases |record| - from
  {
    if from + 2 > |record| then None
    else if record[from..from + 2] == SEPARATOR then Some(from)
    else FirstSeparator(record, from + 1)
  }

  // What follows the first separator of a record.
  function BodyOf(record: string): Option<string> {
    match FirstSeparator(record, 0)
    case None => None
    case Some(i) => Some(record[i + 2..])
  }

  lemma {:induction false} SeparatorAt(record: string, i: int)
    ensures OccursAt(record, SEPARATOR, i) <==> 0 <= i < |record| - 1 && record[i] == ':' && record[i + 1] == '\n'
  {
    if 0 <= i < |record| - 1 {
      assert record[i..i + 2] == [record[i], record[i + 1]];
    }
  }

  // The body follows the first colon at the end of a line, whatever comes after it.
  lemma {:induction false} BodyFollowsHeader(header: string, body: string)
    requires forall i :: 0 <= i < |header| - 1 ==> !(header[i] == ':' && header[i + 1] == '\n')
    ensures BodyOf(header + (":\n" + body)) == Some(body)
  {
    var record := header + (":\n" + body);
    assert record[|header|..|header| + 2] == SEPARATOR && OccursAt(record, SEPARATOR, |header|);
    forall j | 0 <= j < |header| ensures !OccursAt(record, SEPARATOR, j) {
      SeparatorAt(record, j);
    }
    assert record[|header| + 2..] == body;
  }

  // A record without such a colon has no body.
  lemma {:induction false} HeaderlessHasNoBody(record: string)
    requires forall i :: 0 <= i < |record| - 1 ==> !(record[i] == ':' && record[i + 1] == '\n')
    ensures BodyOf(record).None?
  {
    forall i: nat ensures !OccursAt(record, SEPARATOR, i) {
      SeparatorAt(record, i);
    }
  }

  // The body of an attributed record is the text it attributes.
  lemma {:induction false} AttributedBody(sequence: int, text: string)
    ensures BodyOf(Attributed(sequence, text)) == Some(text)
  {
    var header := "#" + Decimal(sequence) + " user";
    DecimalIsInjective(sequence, sequence);
    assert forall c :: c == '-' || IsDigit(c) ==> c != ':';
    assert Attributed(sequence, text) == header + (":\n" + text);
    BodyFollowsHeader(header, text);
  }

  // An increasing choice of messages, the k-th holding the body of the k-th record.
  ghost predicate Embeds(bodies: seq<string>, records: seq<string>, at: seq<int>) {
    && |at| == |records|
    && (forall k :: 0 <= k < |at| ==>
          0 <= at[k] < |bodies| && BodyOf(records[k]).Some? && Contains(bodies[at[k]], BodyOf(records[k]).value))
    && forall j, k :: 0 <= j < k < |at| ==> at[j] < at[k]
  }

  ghost predicate Embeddable(bodies: seq<string>, records: seq<string>) {
    exists at :: Embeds(bodies, records, at)
  }

  lemma {:induction false} PrefixEmbeds(bodies: seq<string>, records: seq<string>, at: seq<int>, n: nat)
    requires Embeds(bodies, records, at) && n <= |records|
    ensures Embeds(bodies, records[..n], at[..n])
  {
  }

  // An embedding of the first n records that ends as early as any.
  ghost predicate Earliest(bodies: seq<string>, records: seq<string>, n: nat, at: seq<int>)
    requires n <= |records|
  {
    && Embeds(bodies, records[..n], at)
    && (n > 0 ==> forall other :: Embeds(bodies, records[..n], other) ==> at[n - 1] <= other[n - 1])
  }

  // The scan of the inner loop.
  method NextHolder(bodies: seq<string>, body: string, from: nat) returns (position: nat)
    requires from <= |bodies|
    ensures from <= position <= |bodies|
    ensures forall i :: from <= i < position ==> !Contains(bodies[i], body)
    ensures position < |bodies| ==> Contains(bodies[position], body)
  {
    position := from;
    while position < |bodies| && !Contains(bodies[position], body)
      invariant from <= position <= |bodies|
      invariant forall i :: from <= i < position ==> !Contains(bodies[i], body)
    {
      position := position + 1;
    }
  }

  // Any embedding of one more record ends no earlier than the next message holding its body.
  lemma {:induction false} GreedyIsEarliest(bodies: seq<string>, records: seq<string>, n: nat, at: seq<int>, position: nat, other: seq<int>)
    requires n < |records| && Earliest(bodies, records, n, at) && BodyOf(records[n]).Some?
    requires forall i :: (if n == 0 then 0 else at[n - 1] + 1) <= i < position && i < |bodies| ==> !Contains(bodies[i], BodyOf(records[n]).value)
    requires Embeds(bodies, records[..n + 1], other)
    ensures position <= other[n]
  {
    PrefixEmbeds(bodies, records[..n + 1], other, n);
    assert records[..n + 1][..n] == records[..n];
    if n > 0 {
      assert other[..n][n - 1] == other[n - 1] < other[n];
    }
    assert records[..n + 1][n] == records[n];
    assert Contains(bodies[other[n]], BodyOf(records[n]).value);
  }

  lemma {:induction false} GreedyExtends(bodies: seq<string>, records: seq<string>, n: nat, at: seq<int>, position: nat)
    requires n < |records| && Earliest(bodies, records, n, at) && BodyOf(records[n]).Some?
    requires (if n == 0 then 0 else at[n - 1] + 1) <= position < |bodies| && Contains(bodies[position], BodyOf(records[n]).value)
    requires forall i :: (if n == 0 then 0 else at[n - 1] + 1) <= i < position ==> !Contains(bodies[i], BodyOf(records[n]).value)
    ensures Earliest(bodies, records, n + 1, at + [position])
  {
    forall other | Embeds(bodies, records[..n + 1], other) ensures position <= other[n] {
      GreedyIsEarliest(bodies, records, n, at, position, other);
    }
    assert forall k :: 0 <= k < n ==> records[..n + 1][k] == records[..n][k];
  }

  lemma {:induction false} GreedyStops(bodies: seq<string>, records: seq<string>, n: nat, at: seq<int>)
    requires n < |records| && Earliest(bodies, records, n, at) && BodyOf(records[n]).Some?
    requires forall i :: (if n == 0 then 0 else at[n - 1] + 1) <= i < |bodies| ==> !Contains(bodies[i], BodyOf(records[n]).value)
    ensures !Embeddable(bodies, records[..n + 1])
  {
    var prefix := records[..n + 1];
    if other :| Embeds(bodies, prefix, other) {
      GreedyIsEarliest(bodies, records, n, at, |bodies|, other);
    }
  }

  // The matching loop over the protected records.
  method MatchRecords(bodies: seq<string>, records: seq<string>) returns (v: Verdict)
    ensures v == Consumed <==> Embeddable(bodies, records)
    ensures v == Raised <==> exists k :: 0 <= k < |records| && BodyOf(records[k]).None? && Embeddable(bodies, records[..k])
  {
    hide Contains, BodyOf;
    var position := 0;
    ghost var at: seq<int> := [];
    for n := 0 to |records|
      invariant 0 <= position <= |bodies|
      invariant Earliest(bodies, records, n, at)
      invariant position == if n == 0 then 0 else at[n - 1] + 1
      invariant forall k :: 0 <= k < n ==> BodyOf(records[k]).Some?
    {
      if BodyOf(records[n]).None? {
        assert Embeddable(bodies, records[..n]);
        MalformedNeverEmbeds(bodies, records, n);
        return Raised;
      }
      var next := NextHolder(bodies, BodyOf(records[n]).value, position);
      if next == |bodies| {
        GreedyStops(bodies, records, n, at);
        NoneFurther(bodies, records, n + 1);
        return NotConsumed;
      }
      GreedyExtends(bodies, records, n, at, next);
      at := at + [next];
      position := next + 1;
    }
    assert records[..|records|] == records;
    assert Embeddable(bodies, records);
    return Consumed;
  }

  lemma {:induction false} MalformedNeverEmbeds(bodies: seq<string>, records: seq<string>, n: nat)
    requires n < |records| && BodyOf(records[n]).None?
    ensures !Embeddable(bodies, records)
  {
    forall at ensures !Embeds(bodies, records, at) {
    }
  }

  // Accepts a protected summary, once its continuation is present, exactly when its records embed
  // in order; a malformed record is noticed exactly when all records before it embed.
  method SummaryConsumed(evidence: Evidence, request: Request) returns (v: Verdict)
    ensures evidence.Opaque? ==> v == if Contains(request.text, evidence.summary) then Consumed else NotConsumed
    ensures evidence.Protected? && !Contains(request.text, evidence.continuation) ==> v == NotConsumed
    ensures evidence.Protected? && Contains(request.text, evidence.continuation) ==>
      && (v == Consumed <==> Embeddable(request.bodies, evidence.records))
      && (v == Raised <==> exists k :: 0 <= k < |evidence.records| && BodyOf(evidence.records[k]).None?
                                       && Embeddable(request.bodies, evidence.records[..k]))
  {
    if evidence.Opaque? {
      return if Contains(request.text, evidence.summary) then Consumed else NotConsumed;
    }
    if !Contains(request.text, evidence.continuation) {
      return NotConsumed;
    }
    v := MatchRecords(request.bodies, evidence.records);
  }

  // If some prefix does not embed, nothing longer does, and every record before it was well formed.
  lemma {:induction false} NoneFurther(bodies: seq<string>, records: seq<string>, n: nat)
    requires n <= |records| && !Embeddable(bodies, records[..n])
    requires forall k :: 0 <= k < n ==> BodyOf(records[k]).Some?
    ensures !Embeddable(bodies, records)
    ensures forall k :: 0 <= k < |records| && BodyOf(records[k]).None? ==> !Embeddable(bodies, records[..k])
  {
    if at :| Embeds(bodies, records, at) {
      PrefixEmbeds(bodies, records, at, n);
    }
    forall k | n <= k < |records| ensures !Embeddable(bodies, records[..k]) {
      assert records[..k][..n] == records[..n];
      if at :| Embeds(bodies, records[..k], at) {
        PrefixEmbeds(bodies, records[..k], at, n);
      }
    }
  }

  // The attributed records of user texts embed exactly when distinct messages, in order, hold the texts.
  lemma {:induction false} AttributedEmbeds(bodies: seq<string>, users: seq<(int, string)>, at: seq<int>)
    ensures var records := seq(|users|, k requires 0 <= k < |users| => Attributed(users[k].0, users[k].1));
            Embeds(bodies, records, at) <==>
              && |at| == |users|
              && (forall k :: 0 <= k < |at| ==> 0 <= at[k] < |bodies| && Contains(bodies[at[k]], users[k].1))
              && forall j, k :: 0 <= j < k < |at| ==> at[j] < at[k]
  {
    forall k | 0 <= k < |users| ensures BodyOf(Attributed(users[k].0, users[k].1)) == Some(users[k].1) {
      AttributedBody(users[k].0, users[k].1);
    }
    hide BodyOf, Contains, Attributed;
  }
}
