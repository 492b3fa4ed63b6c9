// Chronological scope evidence (fixtures/evals/compaction/verify.py, verify_fixture_scope).
//
// User records state directives per key. The fold keeps, for each key, the latest statement with
// the sequence that began its current unbroken run, and the starts of the earlier runs.
module ScopeFold {
  import opened Collections
  import opened Wrappers
  import opened CanonicalLog

  datatype Directive = Directive(key: string, statement: string)

  datatype Stated = Stated(sequence: int, statement: string)

  // ----- Specification over the statements of one key -----

  // Everything stated under a key by covered user records, in order.
  function Stating(sequence: int, directives: seq<Directive>, key: string): seq<Stated> {
    if directives == [] then []
    else
      var last := directives[|directives| - 1];
      Stating(sequence, directives[..|directives| - 1], key) + if last.key == key then [Stated(sequence, last.statement)] else []
  }

  function DirectivesOf(decode: string -> seq<Directive>, e: Event, through: int): seq<Directive> {
    if e.sequence <= through && e.user.Some? then decode(e.user.value) else []
  }

  function History(decode: string -> seq<Directive>, events: seq<Event>, through: int, key: string): seq<Stated> {
    if events == [] then []
    else
      var last := events[|events| - 1];
      History(decode, events[..|events| - 1], through, key) + Stating(last.sequence, DirectivesOf(decode, last, through), key)
  }

  // A run starts where the statement changes.
  predicate RunStart(h: seq<Stated>, i: int) {
    0 <= i < |h| && (i == 0 || h[i - 1].statement != h[i].statement)
  }

  predicate LastRunStart(h: seq<Stated>, i: int) {
    RunStart(h, i) && forall j :: i < j < |h| ==> !RunStart(h, j)
  }

  // The latest statement, with the sequence that began its run.
  ghost predicate IsCurrent(h: seq<Stated>, current: Stated) {
    exists i :: LastRunStart(h, i) && current == Stated(h[i].sequence, h[|h| - 1].statement)
  }

  ghost function EarlierStarts(h: seq<Stated>): set<int> {
    set i | 0 <= i < |h| && RunStart(h, i) && !LastRunStart(h, i) :: h[i].sequence
  }

  // ----- The fold -----

  datatype Scope = Scope(current: map<string, Stated>, ancestors: map<string, set<int>>, keys: seq<string>)

  function AncestorsOf(s: Scope, key: string): set<int> {
    if key in s.ancestors then s.ancestors[key] else {}
  }

  // What the fold holds about one key, whose history so far is h.
  ghost predicate Reflects(s: Scope, key: string, h: seq<Stated>) {
    && (key in s.current <==> h != [])
    && (h != [] ==> IsCurrent(h, s.current[key]))
    && AncestorsOf(s, key) == EarlierStarts(h)
  }

  lemma {:induction false} RunContinues(h: seq<Stated>, x: Stated, current: Stated)
    requires h != [] && IsCurrent(h, current) && current.statement == x.statement
    ensures IsCurrent(h + [x], current) && EarlierStarts(h + [x]) == EarlierStarts(h)
  {
    var h' := h + [x];
    var i :| LastRunStart(h, i) && current == Stated(h[i].sequence, h[|h| - 1].statement);
    assert forall j :: 0 <= j < |h| ==> h'[j] == h[j];
    assert forall j :: 0 <= j < |h| ==> (RunStart(h', j) <==> RunStart(h, j));
    assert !RunStart(h', |h|);
    assert LastRunStart(h', i);
    assert forall j :: 0 <= j < |h| ==> (LastRunStart(h', j) <==> LastRunStart(h, j));
  }

  lemma {:induction false} EarlierStartHolds(h: seq<Stated>, s: int)
    ensures s in EarlierStarts(h) <==> exists j :: RunStart(h, j) && !LastRunStart(h, j) && h[j].sequence == s
  {
  }

  // A statement that changes starts the last run, and what started before stays a start.
  lemma {:induction false} StartsAfterChange(h: seq<Stated>, x: Stated)
    requires h != [] && h[|h| - 1].statement != x.statement
    ensures LastRunStart(h + [x], |h|)
    ensures forall j :: j != |h| ==> (RunStart(h + [x], j) <==> RunStart(h, j)) && !LastRunStart(h + [x], j)
  {
    assert forall j :: 0 <= j < |h| ==> (h + [x])[j] == h[j];
    assert RunStart(h + [x], |h|);
  }

  lemma {:induction false} RunChanges(h: seq<Stated>, x: Stated, current: Stated)
    requires h != [] && IsCurrent(h, current) && current.statement != x.statement
    ensures IsCurrent(h + [x], x) && EarlierStarts(h + [x]) == EarlierStarts(h) + {current.sequence}
  {
    var h' := h + [x];
    var i :| LastRunStart(h, i) && current == Stated(h[i].sequence, h[|h| - 1].statement);
    StartsAfterChange(h, x);
    forall s ensures s in EarlierStarts(h') <==> s in EarlierStarts(h) + {current.sequence} {
      EarlierStartHolds(h, s);
      EarlierStartHolds(h', s);
      if j :| RunStart(h', j) && !LastRunStart(h', j) && h'[j].sequence == s {
        assert RunStart(h, j) && h[j].sequence == s;
      }
      if j :| RunStart(h, j) && (!LastRunStart(h, j) || j == i) && h[j].sequence == s {
        assert RunStart(h', j) && h'[j].sequence == s;
      }
    }
  }

  lemma {:induction false} RunBegins(x: Stated)
    ensures IsCurrent([x], x) && EarlierStarts([x]) == {}
  {
    assert LastRunStart([x], 0);
  }

  // The body of the fold, for one directive.
  function Step(s: Scope, sequence: int, d: Directive): Scope {
    if d.key in s.current then
      var previous := s.current[d.key];
      if previous.statement == d.statement then s
      else s.(ancestors := s.ancestors[d.key := AncestorsOf(s, d.key) + {previous.sequence}],
              current := s.current[d.key := Stated(sequence, d.statement)])
    else s.(current := s.current[d.key := Stated(sequence, d.statement)], keys := s.keys + [d.key])
  }

  lemma {:induction false} StepReflects(s: Scope, sequence: int, d: Directive, key: string, h: seq<Stated>)
    requires Reflects(s, key, h)
    ensures Reflects(Step(s, sequence, d), key, h + if d.key == key then [Stated(sequence, d.statement)] else [])
  {
    if d.key == key {
      var x := Stated(sequence, d.statement);
      if h == [] {
        assert h + [x] == [x];
        RunBegins(x);
        assert EarlierStarts(h) == {};
      } else if s.current[key].statement == d.statement {
        RunContinues(h, x, s.current[key]);
      } else {
        RunChanges(h, x, s.current[key]);
      }
    } else {
      assert h + [] == h;
    }
  }

  // Keys in the order of their first statement, as a dictionary keeps them.
  function WithKeys(keys: seq<string>, directives: seq<Directive>): seq<string> {
    if directives == [] then keys
    else
      var before := WithKeys(keys, directives[..|directives| - 1]);
      var key := directives[|directives| - 1].key;
      if key in before then before else before + [key]
  }

  function KeyOrder(decode: string -> seq<Directive>, events: seq<Event>, through: int): seq<string> {
    if events == [] then []
    else WithKeys(KeyOrder(decode, events[..|events| - 1], through), DirectivesOf(decode, events[|events| - 1], through))
  }

  // The fold has taken in these events and the first directives of the next one.
  ghost predicate Folded(s: Scope, decode: string -> seq<Directive>, events: seq<Event>, through: int,
                         sequence: int, directives: seq<Directive>) {
    && (forall key :: Reflects(s, key, History(decode, events, through, key) + Stating(sequence, directives, key)))
    && s.keys == WithKeys(KeyOrder(decode, events, through), directives)
    && (forall key :: key in s.keys <==> key in s.current)
  }

  ghost predicate FoldedAll(s: Scope, decode: string -> seq<Directive>, events: seq<Event>, through: int) {
    && (forall key :: Reflects(s, key, History(decode, events, through, key)))
    && s.keys == KeyOrder(decode, events, through)
    && (forall key :: key in s.keys <==> key in s.current)
  }

  lemma {:induction false} StatingSnoc(before: seq<Stated>, sequence: int, directives: seq<Directive>, n: nat, key: string)
    requires n < |directives|
    ensures before + Stating(sequence, directives[..n + 1], key)
         == (before + Stating(sequence, directives[..n], key))
            + if directives[n].key == key then [Stated(sequence, directives[n].statement)] else []
  {
    assert directives[..n + 1][..n] == directives[..n];
  }

  lemma {:induction false} StepKeys(s: Scope, keys: seq<string>, sequence: int, directives: seq<Directive>, n: nat)
    requires n < |directives| && s.keys == WithKeys(keys, directives[..n])
    requires forall key :: key in s.keys <==> key in s.current
    ensures var s' := Step(s, sequence, directives[n]);
            s'.keys == WithKeys(keys, directives[..n + 1]) && forall key :: key in s'.keys <==> key in s'.current
  {
    assert directives[..n + 1][..n] == directives[..n];
  }

  lemma {:induction false} StepFolded(s: Scope, decode: string -> seq<Directive>, events: seq<Event>, through: int,
                                      sequence: int, directives: seq<Directive>, n: nat)
    requires n < |directives| && Folded(s, decode, events, through, sequence, directives[..n])
    ensures Folded(Step(s, sequence, directives[n]), decode, events, through, sequence, directives[..n + 1])
  {
    hide Stating, History, Step, Reflects, WithKeys, KeyOrder;
    StepKeys(s, KeyOrder(decode, events, through), sequence, directives, n);
    forall key
      ensures Reflects(Step(s, sequence, directives[n]), key,
                History(decode, events, through, key) + Stating(sequence, directives[..n + 1], key))
    {
      StatingSnoc(History(decode, events, through, key), sequence, directives, n, key);
      StepReflects(s, sequence, directives[n], key, History(decode, events, through, key) + Stating(sequence, directives[..n], key));
    }
  }

  lemma {:induction false} EventFolded(s: Scope, decode: string -> seq<Directive>, events: seq<Event>, through: int, n: nat)
    requires n < |events|
    requires Folded(s, decode, events[..n], through, events[n].sequence, DirectivesOf(decode, events[n], through))
    ensures FoldedAll(s, decode, events[..n + 1], through)
  {
    assert events[..n + 1][..n] == events[..n];
  }

  lemma {:induction false} NothingFolded(s: Scope, decode: string -> seq<Directive>, events: seq<Event>, through: int, sequence: int)
    requires FoldedAll(s, decode, events, through)
    ensures Folded(s, decode, events, through, sequence, [])
  {
    forall key ensures History(decode, events, through, key) + Stating(sequence, [], key) == History(decode, events, through, key) {
    }
  }

  // The fold over the covered records reflects every key's history.
  method FoldScope(decode: string -> seq<Directive>, events: seq<Event>, through: int) returns (s: Scope)
    ensures FoldedAll(s, decode, events, through)
  {
    s := Scope(map[], map[], []);
    assert FoldedAll(s, decode, [], through);
    for n := 0 to |events|
      invariant FoldedAll(s, decode, events[..n], through)
    {
      hide Folded, FoldedAll;
      var event := events[n];
      NothingFolded(s, decode, events[..n], through, event.sequence);
      if event.sequence > through || event.user.None? {
        EventFolded(s, decode, events, through, n);
        continue;
      }
      var directives := decode(event.user.value);
      assert directives[..0] == [];
      for i := 0 to |directives|
        invariant Folded(s, decode, events[..n], through, event.sequence, directives[..i])
      {
        StepFolded(s, decode, events[..n], through, event.sequence, directives, i);
        s := Step(s, event.sequence, directives[i]);
      }
      assert directives[..|directives|] == directives;
      EventFolded(s, decode, events, through, n);
    }
    assert events[..|events|] == events;
  }

  // ----- Accepting a marker's scope -----

  datatype Claim = Claim(source: int, statement: string, supersedes: seq<int>)

  function ClaimOf(c: Claim): Stated {
    Stated(c.source, c.statement)
  }

  ghost predicate HoldsNow(decode: string -> seq<Directive>, events: seq<Event>, through: int, key: string, v: Stated) {
    IsCurrent(History(decode, events, through, key), v)
  }

  // The first key, in order of first statement, that holds the statement now.
  ghost predicate FirstHolder(decode: string -> seq<Directive>, events: seq<Event>, through: int, key: string, v: Stated) {
    var keys := KeyOrder(decode, events, through);
    && HoldsNow(decode, events, through, key, v)
    && exists i :: 0 <= i < |keys| && keys[i] == key && forall j :: 0 <= j < i ==> !HoldsNow(decode, events, through, keys[j], v)
  }

  ghost predicate Supported(decode: string -> seq<Directive>, events: seq<Event>, through: int, key: string, supersedes: seq<int>) {
    Distinct(supersedes) && forall s :: s in supersedes ==> s in EarlierStarts(History(decode, events, through, key))
  }

  ghost predicate Backed(decode: string -> seq<Directive>, events: seq<Event>, through: int, c: Claim) {
    exists key :: FirstHolder(decode, events, through, key, ClaimOf(c)) && Supported(decode, events, through, key, c.supersedes)
  }

  ghost predicate Claimed(claims: seq<Claim>, v: Stated) {
    exists i :: 0 <= i < |claims| && v == ClaimOf(claims[i])
  }

  // The claims list each current statement once, and supersede only earlier run starts of its key.
  ghost predicate ScopeAccepted(decode: string -> seq<Directive>, events: seq<Event>, through: int, claims: seq<Claim>) {
    && (forall i, j :: 0 <= i < j < |claims| ==> ClaimOf(claims[i]) != ClaimOf(claims[j]))
    && (forall v :: Claimed(claims, v) <==> exists key :: HoldsNow(decode, events, through, key, v))
    && forall i :: 0 <= i < |claims| ==> Backed(decode, events, through, claims[i])
  }

  lemma {:induction false} CurrentIsUnique(h: seq<Stated>, a: Stated, b: Stated)
    requires IsCurrent(h, a) && IsCurrent(h, b)
    ensures a == b
  {
    var i :| LastRunStart(h, i) && a == Stated(h[i].sequence, h[|h| - 1].statement);
    var j :| LastRunStart(h, j) && b == Stated(h[j].sequence, h[|h| - 1].statement);
    assert i == j;
  }

  lemma {:induction false} FoldHolds(s: Scope, decode: string -> seq<Directive>, events: seq<Event>, through: int, key: string, v: Stated)
    requires FoldedAll(s, decode, events, through)
    ensures HoldsNow(decode, events, through, key, v) <==> key in s.current && s.current[key] == v
  {
    var h := History(decode, events, through, key);
    assert Reflects(s, key, h);
    if HoldsNow(decode, events, through, key, v) {
      CurrentIsUnique(h, v, s.current[key]);
    }
  }

  lemma {:induction false} FirstHolderIsUnique(decode: string -> seq<Directive>, events: seq<Event>, through: int, k: string, l: string, v: Stated)
    requires FirstHolder(decode, events, through, k, v) && FirstHolder(decode, events, through, l, v)
    ensures k == l
  {
    var keys := KeyOrder(decode, events, through);
    var i :| 0 <= i < |keys| && keys[i] == k && forall j :: 0 <= j < i ==> !HoldsNow(decode, events, through, keys[j], v);
    var m :| 0 <= m < |keys| && keys[m] == l && forall j :: 0 <= j < m ==> !HoldsNow(decode, events, through, keys[j], v);
    assert i == m;
  }

  method HolderOf(s: Scope, ghost decode: string -> seq<Directive>, ghost events: seq<Event>, ghost through: int, v: Stated)
    returns (key: string)
    requires FoldedAll(s, decode, events, through) && exists k :: k in s.current && s.current[k] == v
    ensures key in s.current && FirstHolder(decode, events, through, key, v)
  {
    ghost var k :| k in s.current && s.current[k] == v;
    assert k in s.keys;
    var i := 0;
    while i < |s.keys| && s.current[s.keys[i]] != v
      invariant 0 <= i <= |s.keys|
      invariant forall j :: 0 <= j < i ==> s.current[s.keys[j]] != v
    {
      i := i + 1;
    }
    assert i < |s.keys|;
    key := s.keys[i];
    forall j | 0 <= j <= i ensures HoldsNow(decode, events, through, s.keys[j], v) <==> s.current[s.keys[j]] == v {
      FoldHolds(s, decode, events, through, s.keys[j], v);
    }
  }

  lemma {:induction false} ValuesHold(s: Scope, decode: string -> seq<Directive>, events: seq<Event>, through: int, v: Stated)
    requires FoldedAll(s, decode, events, through)
    ensures v in s.current.Values <==> exists key :: HoldsNow(decode, events, through, key, v)
  {
    if v in s.current.Values {
      var key :| key in s.current && s.current[key] == v;
      FoldHolds(s, decode, events, through, key, v);
    }
    if key :| HoldsNow(decode, events, through, key, v) {
      FoldHolds(s, decode, events, through, key, v);
      assert key in s.current.Keys;
    }
  }

  // Accepts exactly the claims the chronological fold supports.
  method VerifyScope(decode: string -> seq<Directive>, events: seq<Event>, through: int, claims: seq<Claim>) returns (ok: bool)
    ensures ok <==> ScopeAccepted(decode, events, through, claims)
  {
    hide FoldedAll, Backed, HoldsNow, FirstHolder;
    var s := FoldScope(decode, events, through);
    forall v ensures v in s.current.Values <==> exists key :: HoldsNow(decode, events, through, key, v) {
      ValuesHold(s, decode, events, through, v);
    }
    var actual := set i | 0 <= i < |claims| :: ClaimOf(claims[i]);
    assert forall v :: v in actual <==> Claimed(claims, v);
    if actual != s.current.Values || exists i, j :: 0 <= i < j < |claims| && ClaimOf(claims[i]) == ClaimOf(claims[j]) {
      return false;
    }
    for i := 0 to |claims|
      invariant forall m :: 0 <= m < i ==> Backed(decode, events, through, claims[m])
    {
      var v := ClaimOf(claims[i]);
      assert v in s.current.Values;
      var key := HolderOf(s, decode, events, through, v);
      BackedIff(s, decode, events, through, key, claims[i]);
      if !Distinct(claims[i].supersedes) || exists p :: p in claims[i].supersedes && p !in AncestorsOf(s, key) {
        return false;
      }
    }
    return true;
  }

  lemma {:induction false} BackedIff(s: Scope, decode: string -> seq<Directive>, events: seq<Event>, through: int, key: string, c: Claim)
    requires FoldedAll(s, decode, events, through) && FirstHolder(decode, events, through, key, ClaimOf(c))
    ensures Backed(decode, events, through, c)
       <==> Distinct(c.supersedes) && forall p :: p in c.supersedes ==> p in AncestorsOf(s, key)
  {
    hide FirstHolder;
    assert Reflects(s, key, History(decode, events, through, key));
    forall k | FirstHolder(decode, events, through, k, ClaimOf(c)) ensures k == key {
      FirstHolderIsUnique(decode, events, through, k, key, ClaimOf(c));
    }
  }

  // ----- Which key's ancestors a claim is checked against -----

  // Support by a key that really holds the claimed statement now.
  ghost predicate OwnKeyBacked(decode: string -> seq<Directive>, events: seq<Event>, through: int, c: Claim) {
    exists key :: HoldsNow(decode, events, through, key, ClaimOf(c)) && Supported(decode, events, through, key, c.supersedes)
  }

  ghost function SupersedableBy(decode: string -> seq<Directive>, events: seq<Event>, through: int, key: string): set<int> {
    EarlierStarts(History(decode, events, through, key))
  }

  // Of the keys that hold one statement from one record, only the first is consulted. Every claim of
  // that statement is judged by a key of its own exactly when no other holder has ancestors the first
  // one lacks.
  lemma {:induction false} OwnKeyDecides(decode: string -> seq<Directive>, events: seq<Event>, through: int, v: Stated, first: string)
    requires FirstHolder(decode, events, through, first, v)
    ensures
      (forall supersedes ::
         var c := Claim(v.sequence, v.statement, supersedes);
         Backed(decode, events, through, c) <==> OwnKeyBacked(decode, events, through, c))
      <==>
      (forall other :: HoldsNow(decode, events, through, other, v) ==>
         SupersedableBy(decode, events, through, other) <= SupersedableBy(decode, events, through, first))
  {
    hide History, EarlierStarts, IsCurrent, KeyOrder;
    forall k | FirstHolder(decode, events, through, k, v) ensures k == first {
      FirstHolderIsUnique(decode, events, through, k, first, v);
    }
    if forall supersedes ::
         var c := Claim(v.sequence, v.statement, supersedes);
         Backed(decode, events, through, c) <==> OwnKeyBacked(decode, events, through, c)
    {
      forall other, p | HoldsNow(decode, events, through, other, v) && p in SupersedableBy(decode, events, through, other)
        ensures p in SupersedableBy(decode, events, through, first)
      {
        var c := Claim(v.sequence, v.statement, [p]);
        assert Supported(decode, events, through, other, [p]);
        assert OwnKeyBacked(decode, events, through, c) && Backed(decode, events, through, c);
        assert p in [p];
      }
    }
  }

  function SharingDecode(text: string): seq<Directive> {
    if text == "1" then [Directive("a", "p")]
    else if text == "2" then [Directive("b", "q")]
    else [Directive("a", "z"), Directive("b", "z")]
  }

  const SHARING: seq<Event> := [Event("s", 1, Some("1"), ""), Event("s", 2, Some("2"), ""), Event("s", 3, Some("3"), "")]

  lemma {:induction false} EventSnoc(events: seq<Event>, e: Event, key: string)
    ensures History(SharingDecode, events + [e], 3, key)
         == History(SharingDecode, events, 3, key) + Stating(e.sequence, DirectivesOf(SharingDecode, e, 3), key)
    ensures KeyOrder(SharingDecode, events + [e], 3)
         == WithKeys(KeyOrder(SharingDecode, events, 3), DirectivesOf(SharingDecode, e, 3))
  {
    assert (events + [e])[..|events|] == events;
  }

  lemma {:induction false} SharingRestated(key: string)
    requires key == "a" || key == "b"
    ensures Stating(3, [Directive("a", "z"), Directive("b", "z")], key) == [Stated(3, "z")]
    ensures WithKeys(["a", "b"], [Directive("a", "z"), Directive("b", "z")]) == ["a", "b"]
  {
    var both := [Directive("a", "z"), Directive("b", "z")];
    assert both[..1] == [Directive("a", "z")];
    assert "a"[0] != "b"[0];
    assert Stating(3, [], key) == [];
    assert Stating(3, both[..1], key) == if key == "a" then [Stated(3, "z")] else [];
    assert WithKeys(["a", "b"], both[..1]) == ["a", "b"];
  }

  lemma {:induction false} SharingKeys()
    ensures WithKeys([], [Directive("a", "p")]) == ["a"]
    ensures WithKeys(["a"], [Directive("b", "q")]) == ["a", "b"]
  {
    assert "a"[0] != "b"[0];
    assert WithKeys([], [Directive("a", "p")][..0]) == [];
    assert WithKeys(["a"], [Directive("b", "q")][..0]) == ["a"];
    assert "b" !in ["a"];
  }

  lemma {:induction false} SharingDirectives()
    ensures DirectivesOf(SharingDecode, SHARING[0], 3) == [Directive("a", "p")]
    ensures DirectivesOf(SharingDecode, SHARING[1], 3) == [Directive("b", "q")]
    ensures DirectivesOf(SharingDecode, SHARING[2], 3) == [Directive("a", "z"), Directive("b", "z")]
  {
    assert "1"[0] != "2"[0] && "1"[0] != "3"[0] && "2"[0] != "3"[0];
  }

  lemma {:induction false} SharingStated(key: string)
    requires key == "a" || key == "b"
    ensures Stating(1, [Directive("a", "p")], key) == if key == "a" then [Stated(1, "p")] else []
    ensures Stating(2, [Directive("b", "q")], key) == if key == "b" then [Stated(2, "q")] else []
  {
    assert Stating(1, [Directive("a", "p")][..0], key) == [];
    assert Stating(2, [Directive("b", "q")][..0], key) == [];
  }

  lemma {:induction false} SharingHistories(key: string)
    requires key == "a" || key == "b"
    ensures History(SharingDecode, SHARING, 3, key) == [if key == "a" then Stated(1, "p") else Stated(2, "q"), Stated(3, "z")]
    ensures KeyOrder(SharingDecode, SHARING, 3) == ["a", "b"]
  {
    hide SharingDecode, DirectivesOf, Stating, WithKeys;
    SharingDirectives();
    SharingKeys();
    SharingRestated(key);
    SharingStated(key);
    var one, two := [SHARING[0]], [SHARING[0], SHARING[1]];
    assert "a"[0] != "b"[0];
    assert [] + [SHARING[0]] == one && one + [SHARING[1]] == two && two + [SHARING[2]] == SHARING;
    assert History(SharingDecode, [], 3, key) == [] && KeyOrder(SharingDecode, [], 3) == [];
    hide History, KeyOrder;
    EventSnoc([], SHARING[0], key);
    EventSnoc(one, SHARING[1], key);
    EventSnoc(two, SHARING[2], key);
  }

  // Two keys restated in one record: the second key's genuine supersession is refused.
  lemma {:induction false} SharedStatementRefused()
    ensures OwnKeyBacked(SharingDecode, SHARING, 3, Claim(3, "z", [2])) && !Backed(SharingDecode, SHARING, 3, Claim(3, "z", [2]))
  {
    SharingHistories("a");
    SharingHistories("b");
    var a, b, v := [Stated(1, "p"), Stated(3, "z")], [Stated(2, "q"), Stated(3, "z")], Stated(3, "z");
    assert LastRunStart(a, 1) && LastRunStart(b, 1);
    assert HoldsNow(SharingDecode, SHARING, 3, "a", v) && HoldsNow(SharingDecode, SHARING, 3, "b", v);
    assert RunStart(b, 0) && !LastRunStart(b, 0) && b[0].sequence == 2;
    assert 2 in EarlierStarts(b);
    assert Supported(SharingDecode, SHARING, 3, "b", [2]);
    assert KeyOrder(SharingDecode, SHARING, 3)[0] == "a";
    assert FirstHolder(SharingDecode, SHARING, 3, "a", v);
    forall key | FirstHolder(SharingDecode, SHARING, 3, key, v) ensures !Supported(SharingDecode, SHARING, 3, key, [2]) {
      FirstHolderIsUnique(SharingDecode, SHARING, 3, "a", key, v);
      assert 2 in [2] && 2 !in EarlierStarts(a);
    }
  }
}
