// Coverage evidence of an interrupted compaction (fixtures/evals/compaction/verify_automatic.py).
//
// Synthesis attempts deliver attributed fragments of user records, in any order and with any
// repetition. check_lossless decides whether they tile every covered record, check_no_replay
// whether a resumed attempt asks again for bytes an earlier attempt had accepted.
module CompactionCoverage {
  import opened Bytes
  import opened Collections
  import opened Wrappers
  import opened CanonicalLog
  import opened KeyedSort
  import opened Text

  // A source fragment; records outside the canonical log carry no sequence.
  datatype Fragment = Fragment(sequence: Option<int>, provenance: string, offset: int, final: bool, text: string)

  type Identity = (int, string, int)

  function IdentityOf(f: Fragment): Identity
    requires f.sequence.Some?
  {
    (f.sequence.value, f.provenance, f.offset)
  }

  // ----- Specification -----

  function Join(pieces: seq<Fragment>): string {
    if pieces == [] then "" else Join(pieces[..|pieces| - 1]) + pieces[|pieces| - 1].text
  }

  // The pieces cut the text from byte 0 on, at increasing offsets, and only the last is final.
  ghost predicate IsSplit(pieces: seq<Fragment>, text: string) {
    && pieces != []
    && StrictBy((f: Fragment) => f.offset, pieces)
    && (forall i :: 0 <= i < |pieces| ==>
          pieces[i].offset == Utf8Length(Join(pieces[..i])) && pieces[i].final == (i == |pieces| - 1))
    && Join(pieces) == text
  }

  function Delivered(attempts: seq<seq<Fragment>>): set<Fragment> {
    set k, f | 0 <= k < |attempts| && f in attempts[k] && f.sequence.Some? :: f
  }

  function OfRecord(delivered: set<Fragment>, sequence: int): set<Fragment> {
    set f | f in delivered && f.sequence == Some(sequence) && f.provenance == "user"
  }

  ghost predicate Consistent(delivered: set<Fragment>) {
    forall f, g :: f in delivered && g in delivered && f.sequence.Some? && g.sequence.Some? && IdentityOf(f) == IdentityOf(g) ==> f == g
  }

  ghost predicate Tiled(delivered: set<Fragment>, sequence: int, text: string) {
    exists pieces :: IsSplit(pieces, Attributed(sequence, text)) && Lists(pieces, OfRecord(delivered, sequence))
  }

  // Event i is a covered user record, and the last event of its sequence.
  ghost predicate Covered(events: seq<Event>, through: int, i: int) {
    && 0 <= i < |events| && events[i].user.Some? && events[i].sequence <= through
    && forall later :: i < later < |events| ==> events[later].sequence != events[i].sequence
  }

  // The distinct fragments agree, and tile every covered user record.
  ghost predicate Lossless(delivered: set<Fragment>, events: seq<Event>, through: int) {
    && Consistent(delivered)
    && forall i :: Covered(events, through, i) ==> Tiled(delivered, events[i].sequence, events[i].user.value)
  }

  // ----- check_lossless -----

  // A later event of the same sequence replaces an earlier one.
  function BySequence(events: seq<Event>): map<int, Event> {
    if events == [] then map[] else BySequence(events[..|events| - 1])[events[|events| - 1].sequence := events[|events| - 1]]
  }

  lemma {:induction false} BySequenceIsLast(events: seq<Event>, sequence: int, e: Event)
    ensures sequence in BySequence(events) && BySequence(events)[sequence] == e <==>
      exists i ::
        && 0 <= i < |events| && events[i] == e && e.sequence == sequence
        && forall later :: i < later < |events| ==> events[later].sequence != sequence
  {
    if events != [] {
      var n := |events| - 1;
      var init := events[..n];
      BySequenceIsLast(init, sequence, e);
      assert forall i :: 0 <= i < n ==> init[i] == events[i];
      if events[n].sequence == sequence {
        assert events[n] == e ==> events[n] == e && e.sequence == sequence;
      }
    }
  }

  ghost predicate Indexes(fragments: map<Identity, Fragment>, delivered: set<Fragment>) {
    && (forall id :: id in fragments ==> fragments[id] in delivered && fragments[id].sequence.Some? && IdentityOf(fragments[id]) == id)
    && (forall f :: f in delivered ==> f.sequence.Some? && IdentityOf(f) in fragments && fragments[IdentityOf(f)] == f)
  }

  method IndexFragments(attempts: seq<seq<Fragment>>) returns (r: Result<map<Identity, Fragment>>)
    ensures r.Success? <==> Consistent(Delivered(attempts))
    ensures r.Success? ==> Indexes(r.value, Delivered(attempts))
  {
    var fragments: map<Identity, Fragment> := map[];
    ghost var done: set<Fragment> := {};
    for k := 0 to |attempts|
      invariant done <= Delivered(attempts) && Indexes(fragments, done)
      invariant forall i, f :: 0 <= i < k && f in attempts[i] && f.sequence.Some? ==> f in done
    {
      for j := 0 to |attempts[k]|
        invariant done <= Delivered(attempts) && Indexes(fragments, done)
        invariant forall i, f :: 0 <= i < k && f in attempts[i] && f.sequence.Some? ==> f in done
        invariant forall i :: 0 <= i < j && attempts[k][i].sequence.Some? ==> attempts[k][i] in done
      {
        var item := attempts[k][j];
        if item.sequence.None? {
          continue;
        }
        assert item in Delivered(attempts);
        var id := IdentityOf(item);
        if id in fragments && fragments[id] != item {
          return Failure("conflicting source fragment bytes");
        }
        fragments := fragments[id := item];
        done := done + {item};
      }
    }
    assert done == Delivered(attempts);
    return Success(fragments);
  }

  // The offset and final-flag loop over the sorted pieces of one record.
  method CheckPieces(pieces: seq<Fragment>, text: string) returns (ok: bool)
    requires StrictBy((f: Fragment) => f.offset, pieces)
    ensures ok <==> IsSplit(pieces, text)
  {
    if pieces == [] {
      return false;
    }
    var offset := 0;
    for i := 0 to |pieces|
      invariant offset == Utf8Length(Join(pieces[..i]))
      invariant forall j :: 0 <= j < i ==>
        pieces[j].offset == Utf8Length(Join(pieces[..j])) && pieces[j].final == (j == |pieces| - 1)
    {
      if pieces[i].offset != offset || pieces[i].final != (i == |pieces| - 1) {
        return false;
      }
      assert pieces[..i + 1][..i] == pieces[..i];
      Utf8LengthConcat(Join(pieces[..i]), pieces[i].text);
      offset := offset + Utf8Length(pieces[i].text);
    }
    assert pieces[..|pieces|] == pieces;
    return Join(pieces) == text;
  }

  // A record is tiled exactly when its sorted fragments are a split.
  lemma {:induction false} TiledIffSorted(delivered: set<Fragment>, sequence: int, text: string, pieces: seq<Fragment>)
    requires StrictBy((f: Fragment) => f.offset, pieces) && Lists(pieces, OfRecord(delivered, sequence))
    ensures Tiled(delivered, sequence, text) <==> IsSplit(pieces, Attributed(sequence, text))
  {
    if Tiled(delivered, sequence, text) {
      var other :| IsSplit(other, Attributed(sequence, text)) && Lists(other, OfRecord(delivered, sequence));
      UniqueListing((f: Fragment) => f.offset, pieces, other);
    }
  }

  method CheckRecord(fragments: map<Identity, Fragment>, ghost delivered: set<Fragment>, sequence: int, text: string) returns (ok: bool)
    requires Indexes(fragments, delivered)
    ensures ok <==> Tiled(delivered, sequence, text)
  {
    var mine := set id | id in fragments && id.0 == sequence && id.1 == "user" :: fragments[id];
    forall f | f in OfRecord(delivered, sequence) ensures f in mine {
      assert IdentityOf(f) in fragments;
    }
    assert mine == OfRecord(delivered, sequence);
    var pieces := SortByKey((f: Fragment) => f.offset, mine);
    ok := CheckPieces(pieces, Attributed(sequence, text));
    TiledIffSorted(delivered, sequence, text, pieces);
  }

  // Accepts exactly the lossless coverage; what was delivered counts only as a set.
  method CheckLossless(attempts: seq<seq<Fragment>>, events: seq<Event>, through: int) returns (r: Result<()>)
    ensures r.Success? <==> Lossless(Delivered(attempts), events, through)
  {
    hide Tiled, Delivered, BySequence;
    var indexed := IndexFragments(attempts);
    if indexed.Failure? {
      return Failure(indexed.error);
    }
    var records := BySequence(events);
    var rest := records.Keys;
    while rest != {}
      invariant rest <= records.Keys
      invariant forall s :: s in records && s !in rest && records[s].user.Some? && s <= through ==>
        Tiled(Delivered(attempts), s, records[s].user.value)
      decreases |rest|
    {
      InhabitedInts(rest);
      var sequence :| sequence in rest;
      rest := rest - {sequence};
      var event := records[sequence];
      if event.user.None? || sequence > through {
        continue;
      }
      var ok := CheckRecord(indexed.value, Delivered(attempts), sequence, event.user.value);
      if !ok {
        BySequenceIsLast(events, sequence, event);
        var i :| 0 <= i < |events| && events[i] == event && event.sequence == sequence
                 && forall later :: i < later < |events| ==> events[later].sequence != sequence;
        assert Covered(events, through, i);
        return Failure("source fragment missing, gapped, overlapping, misflagged or rewritten");
      }
    }
    forall i | Covered(events, through, i)
      ensures Tiled(Delivered(attempts), events[i].sequence, events[i].user.value)
    {
      BySequenceIsLast(events, events[i].sequence, events[i]);
    }
    return Success(());
  }

  // ----- check_no_replay -----

  datatype Interval = Interval(sequence: Option<int>, provenance: string, offset: int, length: nat)

  function CoverageKeys(attempt: seq<Fragment>): set<Interval> {
    set f | f in attempt :: Interval(f.sequence, f.provenance, f.offset, Utf8Length(f.text))
  }

  type SourceByte = (Option<int>, string, int)

  ghost predicate Holds(i: Interval, b: SourceByte) {
    i.sequence == b.0 && i.provenance == b.1 && i.offset <= b.2 < i.offset + i.length
  }

  ghost predicate Covers(keys: set<Interval>, b: SourceByte) {
    exists i :: i in keys && Holds(i, b)
  }

  ghost predicate DisjointCoverage(a: set<Interval>, b: set<Interval>) {
    forall x :: !(Covers(a, x) && Covers(b, x))
  }

  function Max(a: int, b: int): int { if a < b then b else a }

  function Min(a: int, b: int): int { if a < b then a else b }

  predicate Overlap(i: Interval, j: Interval) {
    (i.sequence, i.provenance) == (j.sequence, j.provenance)
    && Max(i.offset, j.offset) < Min(i.offset + i.length, j.offset + j.length)
  }

  lemma {:induction false} OverlapSharesByte(i: Interval, j: Interval)
    ensures Overlap(i, j) <==> exists b :: Holds(i, b) && Holds(j, b)
  {
    if Overlap(i, j) {
      var b := (i.sequence, i.provenance, Max(i.offset, j.offset));
      assert Holds(i, b) && Holds(j, b);
    }
  }

  lemma {:induction false} DisjointIffNoOverlap(a: set<Interval>, b: set<Interval>)
    ensures DisjointCoverage(a, b) <==> forall i, j :: i in a && j in b ==> !Overlap(i, j)
  {
    forall i, j | i in a && j in b && Overlap(i, j) ensures !DisjointCoverage(a, b) {
      OverlapSharesByte(i, j);
      var x :| Holds(i, x) && Holds(j, x);
      assert Covers(a, x) && Covers(b, x);
    }
    if x :| Covers(a, x) && Covers(b, x) {
      var i :| i in a && Holds(i, x);
      var j :| j in b && Holds(j, x);
      OverlapSharesByte(i, j);
    }
  }

  // Accepts exactly disjoint byte coverage, however the fragments are cut.
  method CheckNoReplay(accepted: set<Interval>, resumed: set<Interval>) returns (ok: bool)
    ensures ok <==> DisjointCoverage(accepted, resumed)
  {
    DisjointIffNoOverlap(accepted, resumed);
    var left := accepted;
    while left != {}
      invariant left <= accepted
      invariant forall i, j :: i in accepted && i !in left && j in resumed ==> !Overlap(i, j)
      decreases |left|
    {
      Inhabited(left);
      var i :| i in left;
      left := left - {i};
      if exists j :: j in resumed && Overlap(i, j) {
        return false;
      }
    }
    return true;
  }

  // ----- The two checks together -----

  // A fragment of an attempt carries the byte at an offset of its source.
  ghost predicate Carries(attempt: seq<Fragment>, sequence: Option<int>, provenance: string, at: int) {
    exists f ::
      f in attempt && f.sequence == sequence && f.provenance == provenance && 0 <= at - f.offset < |Encode(f.text)|
  }

  // What an attempt covers is the encoded bytes of its fragments.
  lemma {:induction false} CoverageIsBytes(attempt: seq<Fragment>, sequence: Option<int>, provenance: string, at: int)
    ensures Covers(CoverageKeys(attempt), (sequence, provenance, at)) <==> Carries(attempt, sequence, provenance, at)
  {
    hide Encode, Utf8Length;
    forall f: Fragment ensures Utf8Length(f.text) == |Encode(f.text)| {
      Utf8LengthIsEncoded(f.text);
    }
    if Carries(attempt, sequence, provenance, at) {
      var f :| f in attempt && f.sequence == sequence && f.provenance == provenance && 0 <= at - f.offset < |Encode(f.text)|;
      var i := Interval(f.sequence, f.provenance, f.offset, Utf8Length(f.text));
      assert i in CoverageKeys(attempt) && Holds(i, (sequence, provenance, at));
    }
  }

  // The coverage of two attempts is disjoint exactly when no byte of any source is carried by both.
  lemma {:induction false} DisjointCarry(a: seq<Fragment>, b: seq<Fragment>)
    ensures DisjointCoverage(CoverageKeys(a), CoverageKeys(b)) <==>
      forall sequence, provenance, at :: !(Carries(a, sequence, provenance, at) && Carries(b, sequence, provenance, at))
  {
    hide Covers, Carries, CoverageKeys;
    forall x: SourceByte
      ensures Covers(CoverageKeys(a), x) <==> Carries(a, x.0, x.1, x.2)
      ensures Covers(CoverageKeys(b), x) <==> Carries(b, x.0, x.1, x.2)
    {
      CoverageIsBytes(a, x.0, x.1, x.2);
      CoverageIsBytes(b, x.0, x.1, x.2);
    }
    forall sequence, provenance, at
      ensures Carries(a, sequence, provenance, at) <==> Covers(CoverageKeys(a), (sequence, provenance, at))
      ensures Carries(b, sequence, provenance, at) <==> Covers(CoverageKeys(b), (sequence, provenance, at))
    {
      CoverageIsBytes(a, sequence, provenance, at);
      CoverageIsBytes(b, sequence, provenance, at);
    }
  }

  // The part of an interrupted run's verdict that concerns coverage: nothing the first attempt
  // covered is sent again from the resumed attempt on, and all attempts together are lossless.
  method CheckCoverage(attempts: seq<seq<Fragment>>, first: nat, resumed: nat, events: seq<Event>, through: int) returns (ok: bool)
    requires first < |attempts| && resumed < |attempts|
    ensures ok <==>
      && (forall k :: resumed <= k < |attempts| ==> DisjointCoverage(CoverageKeys(attempts[first]), CoverageKeys(attempts[k])))
      && Lossless(Delivered(attempts), events, through)
  {
    var prefix := CoverageKeys(attempts[first]);
    for k := resumed to |attempts|
      invariant forall i :: resumed <= i < k ==> DisjointCoverage(prefix, CoverageKeys(attempts[i]))
    {
      var disjoint := CheckNoReplay(prefix, CoverageKeys(attempts[k]));
      if !disjoint {
        return false;
      }
    }
    var lossless := CheckLossless(attempts, events, through);
    return lossless.Success?;
  }

  lemma {:induction false} JoinFrom(pieces: seq<Fragment>, i: nat)
    requires i < |pieces|
    ensures exists rest :: Join(pieces) == Join(pieces[..i]) + pieces[i].text + rest
  {
    if i == |pieces| - 1 {
      assert Join(pieces) == Join(pieces[..i]) + pieces[i].text + "";
    } else {
      var init := pieces[..|pieces| - 1];
      JoinFrom(init, i);
      assert init[..i] == pieces[..i];
      var rest :| Join(init) == Join(pieces[..i]) + pieces[i].text + rest;
      assert Join(pieces) == Join(pieces[..i]) + pieces[i].text + (rest + pieces[|pieces| - 1].text);
    }
  }

  // The piece that reaches past a byte, at its place in the joined text.
  lemma {:induction false} SplitReaches(pieces: seq<Fragment>, n: nat, at: int) returns (i: nat)
    requires n <= |pieces| && 0 <= at < Utf8Length(Join(pieces[..n]))
    ensures i < n && Utf8Length(Join(pieces[..i])) <= at < Utf8Length(Join(pieces[..i])) + Utf8Length(pieces[i].text)
    decreases n
  {
    var init, last := pieces[..n - 1], pieces[n - 1];
    assert pieces[..n][..n - 1] == init;
    Utf8LengthConcat(Join(init), last.text);
    if at < Utf8Length(Join(init)) {
      i := SplitReaches(pieces, n - 1, at);
    } else {
      i := n - 1;
    }
  }

  // The bytes of a part of a text, where they stand in the whole.
  lemma {:induction false} PartBytes(front: string, part: string, rest: string, at: nat)
    requires at < Utf8Length(part)
    ensures
      var bytes := Encode(front + part + rest);
      Utf8Length(front) + at < |bytes| && at < |Encode(part)| && bytes[Utf8Length(front) + at] == Encode(part)[at]
  {
    EncodeConcat(front + part, rest);
    EncodeConcat(front, part);
    Utf8LengthIsEncoded(front);
    Utf8LengthIsEncoded(part);
  }

  // Some attempt delivered this byte of a record.
  ghost predicate DeliveredByte(attempts: seq<seq<Fragment>>, sequence: int, at: int, b: byte) {
    exists k, f ::
      && 0 <= k < |attempts| && f in attempts[k] && f.sequence == Some(sequence) && f.provenance == "user"
      && 0 <= at - f.offset < |Encode(f.text)| && Encode(f.text)[at - f.offset] == b
  }

  // Lossless coverage delivers every byte of every covered record, at its offset.
  lemma {:induction false} LosslessDeliversAll(attempts: seq<seq<Fragment>>, events: seq<Event>, through: int, i: int, at: nat)
    requires Lossless(Delivered(attempts), events, through)
    requires 0 <= i < |events| && events[i].user.Some? && events[i].sequence <= through
    requires forall later :: i < later < |events| ==> events[later].sequence != events[i].sequence
    requires at < |Encode(Attributed(events[i].sequence, events[i].user.value))|
    ensures DeliveredByte(attempts, events[i].sequence, at, Encode(Attributed(events[i].sequence, events[i].user.value))[at])
  {
    hide Attributed, Encode, Join;
    var sequence := events[i].sequence;
    var text := Attributed(sequence, events[i].user.value);
    assert Covered(events, through, i);
    var pieces: seq<Fragment> :| IsSplit(pieces, text) && Lists(pieces, OfRecord(Delivered(attempts), sequence));
    Utf8LengthIsEncoded(text);
    assert pieces[..|pieces|] == pieces;
    var p := SplitReaches(pieces, |pieces|, at);
    var f := pieces[p];
    assert f in pieces;
    JoinFrom(pieces, p);
    var rest :| text == Join(pieces[..p]) + f.text + rest;
    PartBytes(Join(pieces[..p]), f.text, rest, at - f.offset);
    var k :| 0 <= k < |attempts| && f in attempts[k];
  }
}
