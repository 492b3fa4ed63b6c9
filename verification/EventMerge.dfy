// Merging canonical exports (fixtures/evals/compaction/verify.py, load_events).
//
// Exports of one session overlap and repeat. The merged log depends only on the set of exported
// events, and exists exactly when that set is one session's unbroken stretch of sequences.
module EventMerge {
  import opened Collections
  import opened Wrappers
  import opened CanonicalLog
  import opened KeyedSort

  function Exported(exports: seq<seq<Event>>): set<Event> {
    set k, e | 0 <= k < |exports| && e in exports[k] :: e
  }

  // The events in order of sequence, without gap or repetition, all of one session.
  ghost predicate IsLog(log: seq<Event>, events: set<Event>) {
    && log != [] && Lists(log, events)
    && forall i :: 0 <= i < |log| ==> log[i].session == log[0].session && log[i].sequence == log[0].sequence + i
  }

  const BY_SEQUENCE := (e: Event) => e.sequence

  // Neither order nor repetition of the exports matters: the set of events fixes the log.
  lemma {:induction false} LogIsUnique(a: seq<Event>, b: seq<Event>, events: set<Event>)
    requires IsLog(a, events) && IsLog(b, events)
    ensures a == b
  {
    UniqueListing(BY_SEQUENCE, a, b);
  }

  type Key = (string, int)

  function KeyOf(e: Event): Key {
    (e.session, e.sequence)
  }

  ghost predicate Agreeing(events: set<Event>) {
    forall x, y :: x in events && y in events && KeyOf(x) == KeyOf(y) ==> x == y
  }

  ghost predicate Keyed(index: map<Key, Event>, events: set<Event>) {
    && (forall key :: key in index ==> index[key] in events && KeyOf(index[key]) == key)
    && (forall e :: e in events ==> KeyOf(e) in index && index[KeyOf(e)] == e)
  }

  lemma {:induction false} LogAgrees(log: seq<Event>, events: set<Event>)
    requires IsLog(log, events)
    ensures Agreeing(events)
    ensures forall x, y :: x in events && y in events ==> x.session == y.session
  {
    forall x, y | x in events && y in events
      ensures x.session == y.session && (KeyOf(x) == KeyOf(y) ==> x == y)
    {
      assert x in log && y in log;
      var i :| 0 <= i < |log| && log[i] == x;
      var j :| 0 <= j < |log| && log[j] == y;
    }
  }

  method IndexEvents(exports: seq<seq<Event>>) returns (r: Result<map<Key, Event>>)
    ensures r.Success? <==> Agreeing(Exported(exports))
    ensures r.Success? ==> Keyed(r.value, Exported(exports))
  {
    var index: map<Key, Event> := map[];
    ghost var done: set<Event> := {};
    for k := 0 to |exports|
      invariant done <= Exported(exports) && Keyed(index, done)
      invariant forall i, e :: 0 <= i < k && e in exports[i] ==> e in done
    {
      for j := 0 to |exports[k]|
        invariant done <= Exported(exports) && Keyed(index, done)
        invariant forall i, e :: 0 <= i < k && e in exports[i] ==> e in done
        invariant forall i :: 0 <= i < j ==> exports[k][i] in done
      {
        var event := exports[k][j];
        assert event in exports[k] && event in Exported(exports);
        var key := KeyOf(event);
        if key in index && index[key] != event {
          return Failure("conflicting canonical event identity");
        }
        index := index[key := event];
        done := done + {event};
      }
    }
    assert done == Exported(exports);
    return Success(index);
  }

  method ValuesOf(index: map<Key, Event>, ghost events: set<Event>) returns (values: set<Event>)
    requires Keyed(index, events)
    ensures values == events
  {
    values := set key | key in index :: index[key];
    forall e | e in events ensures e in values {
      assert KeyOf(e) in index;
    }
  }

  // There is a log exactly when the sorted events are one.
  lemma {:induction false} LogIffSorted(ordered: seq<Event>, events: set<Event>)
    requires StrictBy(BY_SEQUENCE, ordered) && Lists(ordered, events)
    ensures (exists log :: IsLog(log, events)) <==> IsLog(ordered, events)
  {
    if log :| IsLog(log, events) {
      assert StrictBy(BY_SEQUENCE, log);
      UniqueListing(BY_SEQUENCE, log, ordered);
    }
  }

  lemma {:induction false} NoEmptyLog(log: seq<Event>)
    ensures !IsLog(log, {})
  {
    if log != [] {
      assert log[0] in log;
    }
  }

  lemma {:induction false} LogNeeds(events: set<Event>)
    ensures (exists log :: IsLog(log, events)) ==>
      Agreeing(events) && events != {} && forall x, y :: x in events && y in events ==> x.session == y.session
  {
    if log :| IsLog(log, events) {
      LogAgrees(log, events);
      NoEmptyLog(log);
    }
  }

  // Sorts one session's events, unless a sequence is missing.
  method SortLog(values: set<Event>) returns (r: Result<seq<Event>>)
    requires values != {} && Agreeing(values)
    requires forall x, y :: x in values && y in values ==> x.session == y.session
    ensures r.Success? <==> exists log :: IsLog(log, values)
    ensures r.Success? ==> IsLog(r.value, values)
  {
    OneSessionDistinct(values);
    hide IsLog, Lists, Agreeing, StrictBy, DistinctKeys;
    var ordered := SortByKey(BY_SEQUENCE, values);
    LogIffSorted(ordered, values);
    LogIffConsecutive(ordered, values);
    if exists i :: 0 <= i < |ordered| && ordered[i].sequence != ordered[0].sequence + i {
      return Failure("canonical export sequence gap");
    }
    return Success(ordered);
  }

  // Succeeds exactly when the exported events form a log, and returns it.
  method LoadEvents(exports: seq<seq<Event>>) returns (r: Result<seq<Event>>)
    ensures r.Success? <==> exists log :: IsLog(log, Exported(exports))
    ensures r.Success? ==> IsLog(r.value, Exported(exports))
  {
    ghost var events := Exported(exports);
    LogNeeds(events);
    hide IsLog, Keyed, Agreeing, Exported;
    var indexed := IndexEvents(exports);
    if indexed.Failure? {
      return Failure(indexed.error);
    }
    var values := ValuesOf(indexed.value, events);
    if values == {} || exists x, y :: x in values && y in values && x.session != y.session {
      return Failure("expected exactly one nonempty canonical session across restart");
    }
    r := SortLog(values);
  }

  lemma {:induction false} OneSessionDistinct(values: set<Event>)
    requires Agreeing(values) && forall x, y :: x in values && y in values ==> x.session == y.session
    ensures DistinctKeys(BY_SEQUENCE, values)
  {
    forall x, y | x in values && y in values && BY_SEQUENCE(x) == BY_SEQUENCE(y) ensures x == y {
      assert KeyOf(x) == KeyOf(y);
    }
  }

  lemma {:induction false} LogIffConsecutive(ordered: seq<Event>, values: set<Event>)
    requires values != {} && Lists(ordered, values)
    requires forall x, y :: x in values && y in values ==> x.session == y.session
    ensures IsLog(ordered, values) <==> forall i :: 0 <= i < |ordered| ==> ordered[i].sequence == ordered[0].sequence + i
  {
    Inhabited(values);
    var some :| some in values;
    assert some in ordered;
    forall i | 0 <= i < |ordered| ensures ordered[i].session == ordered[0].session {
      assert ordered[i] in ordered && ordered[0] in ordered;
    }
  }
}
