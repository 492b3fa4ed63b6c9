// The bundled-Tesseract version policy (xtask/src/main.rs): version tags and the recommended update.
module VersionPolicy {
  import opened Text
  import opened Wrappers

  const WORD_LIMIT: int := 0x1_0000_0000_0000_0000

  datatype VersionTag = VersionTag(major: nat, minor: nat, patch: nat)

  predicate Fits(v: VersionTag) {
    v.major < WORD_LIMIT && v.minor < WORD_LIMIT && v.patch < WORD_LIMIT
  }

  predicate Older(a: VersionTag, b: VersionTag) {
    a.major < b.major || (a.major == b.major && (a.minor < b.minor || (a.minor == b.minor && a.patch < b.patch)))
  }

  // Versions compare as the numbers their components make in base 2^64.
  lemma {:induction false} OlderIsNumeric(a: VersionTag, b: VersionTag)
    requires Fits(a) && Fits(b)
    ensures Older(a, b) <==> Weight(a) < Weight(b)
  {
  }

  function Weight(v: VersionTag): nat {
    (v.major * 18446744073709551616 + v.minor) * 18446744073709551616 + v.patch
  }

  // ----- Parsing and printing -----

  // An unsigned 64-bit number: digits after an optional plus sign, without overflow.
  function ParseWord(s: string): Option<nat> {
    var digits := if s != [] && s[0] == '+' then s[1..] else s;
    if digits == [] then None
    else
      match ParseDigits(digits)
      case Some(n) => if n < WORD_LIMIT then Some(n) else None
      case None => None
  }

  function Split(s: string, separator: char): (parts: seq<string>)
    ensures parts != []
  {
    if s == [] then [[]]
    else
      var parts := Split(s[1..], separator);
      if s[0] == separator then [[]] + parts else [[s[0]] + parts[0]] + parts[1..]
  }

  function Parse(tag: string): Option<VersionTag> {
    var parts := Split(if tag != [] && tag[0] == 'v' then tag[1..] else tag, '.');
    if |parts| != 3 then None
    else
      var major, minor, patch := ParseWord(parts[0]), ParseWord(parts[1]), ParseWord(parts[2]);
      if major.None? || minor.None? || patch.None? then None
      else Some(VersionTag(major.value, minor.value, patch.value))
  }

  function Print(v: VersionTag): string {
    Digits(v.major) + ("." + (Digits(v.minor) + ("." + Digits(v.patch))))
  }

  lemma {:induction false} WordRoundTrip(n: nat)
    requires n < WORD_LIMIT
    ensures ParseWord(Digits(n)) == Some(n)
  {
    DigitsParse(n);
    assert IsDigit(Digits(n)[0]);
  }

  // A word is read from digits, as many as there are but at least one, after at most one plus sign.
  lemma {:induction false} WordReads(n: nat, s: string)
    ensures ParseWord(Digits(n)) == ParseWord("+" + Digits(n)) == if n <= 18446744073709551615 then Some(n) else None
    ensures ParseWord(s).Some? ==>
              var rest := if s != [] && s[0] == '+' then s[1..] else s;
              rest != [] && forall i :: 0 <= i < |rest| ==> '0' <= rest[i] <= '9'
  {
    DigitsParse(n);
    assert IsDigit(Digits(n)[0]) && ("+" + Digits(n))[1..] == Digits(n);
    OnlyDigitsParse(s);
    if s != [] {
      OnlyDigitsParse(s[1..]);
    }
  }

  lemma {:induction false} OnlyDigitsParse(s: string)
    ensures ParseDigits(s).Some? ==> forall i :: 0 <= i < |s| ==> '0' <= s[i] <= '9'
  {
    if s != [] {
      OnlyDigitsParse(s[..|s| - 1]);
      assert forall i :: 0 <= i < |s| - 1 ==> s[i] == s[..|s| - 1][i];
    }
  }

  lemma {:induction false} SplitCounts(s: string)
    ensures |Split(s, '.')| == multiset(s)['.'] + 1
  {
    if s != [] {
      SplitCounts(s[1..]);
      assert s == [s[0]] + s[1..];
    }
  }

  // A tag is three words between two dots, after at most one v; nothing else is a version.
  lemma {:induction false} TagParses(x: string, y: string, z: string, v: bool)
    requires (x == [] || x[0] != 'v') && '.' !in x && '.' !in y && '.' !in z
    ensures Parse((if v then "v" else "") + (x + ("." + (y + ("." + z))))) ==
              match (ParseWord(x), ParseWord(y), ParseWord(z))
              case (Some(major), Some(minor), Some(patch)) => Some(VersionTag(major, minor, patch))
              case _ => None
  {
    var rest := x + ("." + (y + ("." + z)));
    var tag := (if v then "v" else "") + rest;
    assert rest[0] != 'v';
    assert (if tag[0] == 'v' then tag[1..] else tag) == rest;
    SplitAtDot(x, y + ("." + z));
    SplitAtDot(y, z);
    SplitWhole(z);
    assert Split(rest, '.') == [x] + ([y] + [z]);
    hide ParseWord, Split;
  }

  lemma {:induction false} TagHasTwoDots(tag: string)
    requires multiset(tag)['.'] != 2
    ensures Parse(tag).None?
  {
    if tag != [] {
      assert tag == [tag[0]] + tag[1..];
      SplitCounts(tag[1..]);
    }
    SplitCounts(tag);
  }

  lemma {:induction false} SplitAtDot(s: string, rest: string)
    requires forall i :: 0 <= i < |s| ==> s[i] != '.'
    ensures Split(s + ("." + rest), '.') == [s] + Split(rest, '.')
  {
    var whole := s + ("." + rest);
    if s == [] {
      assert whole[0] == '.' && whole[1..] == rest;
    } else {
      assert whole[1..] == s[1..] + ("." + rest);
      SplitAtDot(s[1..], rest);
      assert [s[0]] + s[1..] == s;
    }
  }

  lemma {:induction false} SplitWhole(s: string)
    requires forall i :: 0 <= i < |s| ==> s[i] != '.'
    ensures Split(s, '.') == [s]
  {
    if s != [] {
      SplitWhole(s[1..]);
      assert [s[0]] + s[1..] == s;
    }
  }

  // Parsing a printed version returns it.
  lemma {:induction false} PrintParses(v: VersionTag)
    requires Fits(v)
    ensures Parse(Print(v)) == Some(v)
  {
    var major, minor, patch := Digits(v.major), Digits(v.minor), Digits(v.patch);
    DigitsParse(v.major);
    DigitsParse(v.minor);
    DigitsParse(v.patch);
    assert forall c :: IsDigit(c) ==> c != '.' && c != 'v';
    assert Print(v)[0] == major[0] && IsDigit(major[0]);
    SplitAtDot(major, minor + ("." + patch));
    SplitAtDot(minor, patch);
    SplitWhole(patch);
    assert Split(Print(v), '.') == [major] + ([minor] + [patch]);
    WordRoundTrip(v.major);
    WordRoundTrip(v.minor);
    WordRoundTrip(v.patch);
  }

  // ----- The version list -----

  datatype Listed = Listed(text: string)

  function KeyOf(l: Listed): Option<VersionTag> {
    Parse(l.text)
  }

  // Entries that do not parse sort first.
  predicate Precedes(a: Listed, b: Listed) {
    match (KeyOf(a), KeyOf(b))
    case (None, Some(_)) => true
    case (Some(x), Some(y)) => Older(x, y)
    case _ => false
  }

  ghost predicate InOrder(list: seq<Listed>) {
    forall i, j :: 0 <= i < j < |list| ==> !Precedes(list[j], list[i])
  }

  function Insert(l: Listed, list: seq<Listed>): seq<Listed> {
    if list == [] then [l]
    else if Precedes(l, list[|list| - 1]) then Insert(l, list[..|list| - 1]) + [list[|list| - 1]]
    else list + [l]
  }

  // The stable sort by parsed version.
  function Sort(list: seq<Listed>): seq<Listed> {
    if list == [] then [] else Insert(list[|list| - 1], Sort(list[..|list| - 1]))
  }

  // Drops entries equal to their predecessor.
  function Dedup(list: seq<Listed>): seq<Listed> {
    if |list| < 2 then list
    else
      var init, last := Dedup(list[..|list| - 1]), list[|list| - 1];
      if list[|list| - 2] == last then init else init + [last]
  }

  lemma {:induction false} InsertHolds(l: Listed, list: seq<Listed>, x: Listed)
    ensures x in Insert(l, list) <==> x == l || x in list
  {
    if list != [] {
      InsertHolds(l, list[..|list| - 1], x);
      assert list == list[..|list| - 1] + [list[|list| - 1]];
    }
  }

  lemma {:induction false} SortHolds(list: seq<Listed>, x: Listed)
    ensures x in Sort(list) <==> x in list
  {
    if list != [] {
      InsertHolds(list[|list| - 1], Sort(list[..|list| - 1]), x);
      SortHolds(list[..|list| - 1], x);
      assert list == list[..|list| - 1] + [list[|list| - 1]];
    }
  }

  lemma {:induction false} InsertInOrder(l: Listed, list: seq<Listed>)
    requires InOrder(list)
    ensures InOrder(Insert(l, list))
  {
    if list != [] {
      var init, last := list[..|list| - 1], list[|list| - 1];
      if Precedes(l, last) {
        InsertInOrder(l, init);
        var r := Insert(l, init);
        forall i | 0 <= i < |r| ensures !Precedes(last, r[i]) {
          InsertHolds(l, init, r[i]);
          assert r[i] in r;
        }
      } else {
        forall i | 0 <= i < |list| ensures !Precedes(l, list[i]) {
          assert i < |list| - 1 ==> !Precedes(last, list[i]);
        }
      }
    }
  }

  lemma {:induction false} SortInOrder(list: seq<Listed>)
    ensures InOrder(Sort(list))
  {
    if list != [] {
      SortInOrder(list[..|list| - 1]);
      InsertInOrder(list[|list| - 1], Sort(list[..|list| - 1]));
    }
  }

  lemma {:induction false} SortKeepsOrdered(list: seq<Listed>)
    requires InOrder(list)
    ensures Sort(list) == list
  {
    if list != [] {
      var init := list[..|list| - 1];
      SortKeepsOrdered(init);
      assert init + [list[|list| - 1]] == list;
      assert init != [] ==> init[|init| - 1] == list[|list| - 2];
    }
  }

  // The entries whose key is k, in list order.
  function Keyed(list: seq<Listed>, k: Option<VersionTag>): seq<Listed> {
    if list == [] then []
    else Keyed(list[..|list| - 1], k) + if KeyOf(list[|list| - 1]) == k then [list[|list| - 1]] else []
  }

  lemma {:induction false} KeyedAppend(list: seq<Listed>, last: Listed, k: Option<VersionTag>)
    ensures Keyed(list + [last], k) == Keyed(list, k) + if KeyOf(last) == k then [last] else []
  {
    assert (list + [last])[..|list|] == list;
  }

  lemma {:induction false} PrecedesByKey(a: Listed, b: Listed)
    requires Precedes(a, b)
    ensures KeyOf(a) != KeyOf(b)
  {
  }

  lemma {:induction false} InsertIsStable(l: Listed, list: seq<Listed>, k: Option<VersionTag>)
    ensures Keyed(Insert(l, list), k) == Keyed(list, k) + if KeyOf(l) == k then [l] else []
  {
    hide KeyOf, Precedes;
    if list != [] && Precedes(l, list[|list| - 1]) {
      var init, last := list[..|list| - 1], list[|list| - 1];
      InsertIsStable(l, init, k);
      assert list == init + [last];
      hide Keyed;
      KeyedAppend(init, last, k);
      KeyedAppend(Insert(l, init), last, k);
      PrecedesByKey(l, last);
    } else {
      KeyedAppend(list, l, k);
    }
  }

  // Sorting keeps the entries of each key and their order.
  lemma {:induction false} SortIsStable(list: seq<Listed>, k: Option<VersionTag>)
    ensures Keyed(Sort(list), k) == Keyed(list, k)
  {
    if list != [] {
      var init, last := list[..|list| - 1], list[|list| - 1];
      SortIsStable(init, k);
      InsertIsStable(last, Sort(init), k);
    }
  }

  lemma {:induction false} DedupHolds(list: seq<Listed>, x: Listed)
    ensures x in Dedup(list) <==> x in list
  {
    if |list| >= 2 {
      DedupHolds(list[..|list| - 1], x);
      assert list == list[..|list| - 1] + [list[|list| - 1]];
    }
  }

  lemma {:induction false} DedupLast(list: seq<Listed>)
    requires list != []
    ensures Dedup(list) != [] && Dedup(list)[|Dedup(list)| - 1] == list[|list| - 1]
  {
    if |list| >= 2 {
      DedupLast(list[..|list| - 1]);
    }
  }

  lemma {:induction false} DedupAppend(list: seq<Listed>, last: Listed)
    requires list == [] || list[|list| - 1] != last
    ensures Dedup(list + [last]) == Dedup(list) + [last]
  {
    assert (list + [last])[..|list|] == list;
  }

  // Where no entry equals its predecessor, nothing is dropped; an entry that does makes no difference.
  // This fixes what is left of any list.
  lemma {:induction false} DedupKeeps(list: seq<Listed>)
    requires forall i :: 0 < i < |list| ==> list[i - 1] != list[i]
    ensures Dedup(list) == list
  {
    if |list| >= 2 {
      DedupKeeps(list[..|list| - 1]);
      assert list == list[..|list| - 1] + [list[|list| - 1]];
    }
  }

  lemma {:induction false} DedupSnoc(list: seq<Listed>, last: Listed)
    ensures list != [] && list[|list| - 1] == last ==> Dedup(list + [last]) == Dedup(list)
    ensures list == [] || list[|list| - 1] != last ==> Dedup(list + [last]) == Dedup(list) + [last]
  {
    assert (list + [last])[..|list|] == list;
  }

  lemma {:induction false} DedupDrops(before: seq<Listed>, x: Listed, after: seq<Listed>)
    ensures Dedup(before + [x, x] + after) == Dedup(before + [x] + after)
  {
    hide Dedup;
    if after == [] {
      DedupSnoc(before + [x], x);
      assert before + [x] + [x] == before + [x, x] + after && before + [x] + after == before + [x];
    } else {
      var init, last := after[..|after| - 1], after[|after| - 1];
      DedupDrops(before, x, init);
      DedupSnoc(before + [x, x] + init, last);
      DedupSnoc(before + [x] + init, last);
      assert before + [x, x] + init + [last] == before + [x, x] + after;
      assert before + [x] + init + [last] == before + [x] + after;
    }
  }

  // A second pass finds no entry equal to its predecessor.
  lemma {:induction false} DedupIsIdempotent(list: seq<Listed>)
    ensures Dedup(Dedup(list)) == Dedup(list)
  {
    if |list| >= 2 {
      var init := list[..|list| - 1];
      DedupIsIdempotent(init);
      DedupLast(init);
      if init[|init| - 1] != list[|list| - 1] {
        DedupAppend(Dedup(init), list[|list| - 1]);
      }
    }
  }

  lemma {:induction false} DedupInOrder(list: seq<Listed>)
    requires InOrder(list)
    ensures InOrder(Dedup(list))
  {
    if |list| >= 2 {
      var init, last := list[..|list| - 1], list[|list| - 1];
      DedupInOrder(init);
      var d := Dedup(init);
      forall i | 0 <= i < |d| ensures !Precedes(last, d[i]) {
        DedupHolds(init, d[i]);
        assert d[i] in d;
      }
    }
  }

  // ----- The recommended update -----

  // The greatest version among the entries that parse.
  function Newest(list: seq<Listed>): Option<VersionTag> {
    if list == [] then None
    else
      var best, last := Newest(list[..|list| - 1]), KeyOf(list[|list| - 1]);
      if best.None? || (last.Some? && Older(best.value, last.value)) then last else best
  }

  predicate Passed(v: VersionTag, current: Option<VersionTag>) {
    current.Some? && !Older(current.value, v)
  }

  // The upstream versions newer than the current one, as they would be listed.
  function Newer(upstream: seq<VersionTag>, current: Option<VersionTag>): seq<Listed> {
    if upstream == [] then []
    else
      var last := upstream[|upstream| - 1];
      Newer(upstream[..|upstream| - 1], current) + if Passed(last, current) then [] else [Listed(Print(last))]
  }

  ghost predicate Increasing(upstream: seq<VersionTag>) {
    && (forall i :: 0 <= i < |upstream| ==> Fits(upstream[i]))
    && (forall i, j :: 0 <= i < j < |upstream| ==> Older(upstream[i], upstream[j]))
  }

  datatype Policy = Policy(versions: seq<Listed>, standard: string, latest: string, leptonica: string, tessdata: string)

  datatype Upstream = Upstream(tesseract: seq<VersionTag>, leptonica: seq<VersionTag>, tessdata: string)

  datatype Update = Update(policy: Policy, added: seq<Listed>, leptonicaChanged: bool, tessdataChanged: bool)

  // What the update promises: the old versions in order without repeats, followed by exactly the newer upstream ones.
  ghost function Recommended(policy: Policy, state: Upstream): Update {
    var newer := Newer(state.tesseract, Newest(policy.versions));
    var latest :=
      if state.tesseract == [] then policy.latest else Print(state.tesseract[|state.tesseract| - 1]);
    var standard := if state.tesseract == [] then policy.standard else latest;
    var leptonica :=
      if state.leptonica == [] then policy.leptonica else Print(state.leptonica[|state.leptonica| - 1]);
    Update(
      Policy(Dedup(Sort(policy.versions)) + newer, standard, latest, leptonica, state.tessdata),
      newer, leptonica != policy.leptonica, state.tessdata != policy.tessdata)
  }

  // The newest version is listed, and no listed version is newer.
  lemma {:induction false} NewestIsGreatest(list: seq<Listed>, x: Listed)
    requires x in list && KeyOf(x).Some?
    ensures Newest(list).Some? && !Older(Newest(list).value, KeyOf(x).value)
  {
    var init := list[..|list| - 1];
    assert list == init + [list[|list| - 1]];
    if x in init {
      NewestIsGreatest(init, x);
    }
  }

  lemma {:induction false} NewestIsListed(list: seq<Listed>)
    requires Newest(list).Some?
    ensures exists x :: x in list && KeyOf(x) == Newest(list)
  {
    var init, last := list[..|list| - 1], list[|list| - 1];
    assert last in list;
    if Newest(list) == Newest(init) {
      NewestIsListed(init);
      var x :| x in init && KeyOf(x) == Newest(init);
      assert x in list;
    }
  }

  // Each newer version is later than everything listed before it.
  lemma {:induction false} NewerIsLater(prior: seq<Listed>, upstream: seq<VersionTag>, v: VersionTag, x: Listed)
    requires Fits(v) && !Passed(v, Newest(prior))
    requires forall i :: 0 <= i < |upstream| ==> Fits(upstream[i]) && Older(upstream[i], v)
    requires x in prior || x in Newer(upstream, Newest(prior))
    ensures Precedes(x, Listed(Print(v))) && !Precedes(Listed(Print(v)), x) && x != Listed(Print(v))
  {
    PrintParses(v);
    if x in prior {
      if KeyOf(x).Some? {
        NewestIsGreatest(prior, x);
      }
    } else {
      var init, last := upstream[..|upstream| - 1], upstream[|upstream| - 1];
      if x in Newer(init, Newest(prior)) {
        NewerIsLater(prior, init, v, x);
      } else {
        PrintParses(last);
      }
    }
  }

  lemma {:induction false} SortAppend(list: seq<Listed>, last: Listed)
    requires forall x :: x in list ==> !Precedes(last, x)
    ensures Sort(list + [last]) == Sort(list) + [last]
  {
    assert (list + [last])[..|list|] == list;
    if list != [] {
      var s := Sort(list);
      SortHolds(list, list[0]);
      SortHolds(list, s[|s| - 1]);
    }
  }

  // The sorted list of prior entries is followed, unchanged, by later ones.
  ghost predicate Follows(prior: seq<Listed>, later: seq<Listed>) {
    && Sort(prior + later) == Sort(prior) + later
    && Dedup(Sort(prior) + later) == Dedup(Sort(prior)) + later
  }

  lemma {:induction false} SortFollows(prior: seq<Listed>, later: seq<Listed>, last: Listed)
    requires Sort(prior + later) == Sort(prior) + later
    requires forall x :: x in prior + later ==> !Precedes(last, x)
    ensures Sort(prior + (later + [last])) == Sort(prior) + (later + [last])
  {
    hide Sort, Precedes;
    SortAppend(prior + later, last);
    assert prior + (later + [last]) == (prior + later) + [last];
  }

  lemma {:induction false} DedupFollows(s: seq<Listed>, later: seq<Listed>, last: Listed)
    requires Dedup(s + later) == Dedup(s) + later && last !in s + later
    ensures Dedup(s + (later + [last])) == Dedup(s) + (later + [last])
  {
    hide Dedup;
    assert s + (later + [last]) == (s + later) + [last];
    DedupAppend(s + later, last);
  }

  // Newer versions go to the end and survive the removal of repeats.
  lemma {:induction false} NewerComesLast(prior: seq<Listed>, upstream: seq<VersionTag>)
    requires Increasing(upstream)
    ensures Follows(prior, Newer(upstream, Newest(prior)))
  {
    hide Sort, Dedup, Newest, Print, Precedes;
    var newer := Newer(upstream, Newest(prior));
    if upstream == [] {
      assert prior + newer == prior && Sort(prior) + newer == Sort(prior);
      assert Dedup(Sort(prior)) + newer == Dedup(Sort(prior));
    } else {
      var init, v := upstream[..|upstream| - 1], upstream[|upstream| - 1];
      NewerComesLast(prior, init);
      if !Passed(v, Newest(prior)) {
        var before, last := Newer(init, Newest(prior)), Listed(Print(v));
        forall x | x in prior + before ensures !Precedes(last, x) && x != last {
          NewerIsLater(prior, init, v, x);
        }
        SortFollows(prior, before, last);
        SortHolds(prior, last);
        assert last !in prior + before;
        assert last !in prior && last !in before;
        DedupFollows(Sort(prior), before, last);
      } else {
        assert newer == Newer(init, Newest(prior));
      }
    }
  }

  // The loop over upstream versions: old entries first, then the newer ones not listed yet.
  method CollectNewer(prior: seq<Listed>, upstream: seq<VersionTag>) returns (versions: seq<Listed>)
    requires Increasing(upstream)
    ensures versions == prior + Newer(upstream, Newest(prior))
  {
    hide Newest, Print, Precedes, KeyOf;
    versions := prior;
    var current := Newest(prior);
    var i := 0;
    while i < |upstream|
      invariant 0 <= i <= |upstream|
      invariant versions == prior + Newer(upstream[..i], current)
    {
      var v := upstream[i];
      assert upstream[..i + 1][..i] == upstream[..i];
      if !Passed(v, current) {
        var text := Listed(Print(v));
        if text in versions {
          NewerIsLater(prior, upstream[..i], v, text);
        }
        if text !in versions {
          versions := versions + [text];
        }
      }
      i := i + 1;
    }
    assert upstream[..i] == upstream;
  }

  // The listed entries that the prior list does not hold, in order.
  method SelectAdded(versions: seq<Listed>, prior: seq<Listed>, ghost kept: seq<Listed>, ghost newer: seq<Listed>)
    returns (added: seq<Listed>)
    requires versions == kept + newer
    requires (forall x :: x in kept ==> x in prior) && (forall x :: x in newer ==> x !in prior)
    ensures added == newer
  {
    added := [];
    for i := 0 to |versions|
      invariant added == if i <= |kept| then [] else newer[..i - |kept|]
    {
      if versions[i] !in prior {
        added := added + [versions[i]];
      }
      assert i < |kept| ==> kept[i] in prior;
      assert i >= |kept| ==> newer[i - |kept|] in newer;
    }
  }

  lemma {:induction false} NewerIsUnlisted(prior: seq<Listed>, upstream: seq<VersionTag>, x: Listed)
    requires Increasing(upstream) && x in Newer(upstream, Newest(prior))
    ensures x !in prior
  {
    var init, last := upstream[..|upstream| - 1], upstream[|upstream| - 1];
    if x in Newer(init, Newest(prior)) {
      NewerIsUnlisted(prior, init, x);
    } else if x in prior {
      NewerIsLater(prior, init, last, x);
    }
  }

  method Recommend(policy: Policy, state: Upstream) returns (update: Update)
    requires Increasing(state.tesseract)
    ensures update == Recommended(policy, state)
  {
    var prior := policy.versions;
    ghost var newer := Newer(state.tesseract, Newest(prior));
    var versions := CollectNewer(prior, state.tesseract);
    versions := Sort(versions);
    versions := Dedup(versions);
    NewerComesLast(prior, state.tesseract);
    var latest, standard, leptonica := policy.latest, policy.standard, policy.leptonica;
    if state.tesseract != [] {
      latest := Print(state.tesseract[|state.tesseract| - 1]);
      standard := latest;
    }
    if state.leptonica != [] {
      leptonica := Print(state.leptonica[|state.leptonica| - 1]);
    }
    forall x | x in Dedup(Sort(prior)) ensures x in prior {
      DedupHolds(Sort(prior), x);
      SortHolds(prior, x);
    }
    forall x | x in newer ensures x !in prior {
      NewerIsUnlisted(prior, state.tesseract, x);
    }
    var added := SelectAdded(versions, prior, Dedup(Sort(prior)), newer);
    update := Update(
      Policy(versions, standard, latest, leptonica, state.tessdata),
      added, leptonica != policy.leptonica, state.tessdata != policy.tessdata);
  }

  // Every old version stays, every newer upstream version is listed, and nothing else is.
  lemma {:induction false} RecommendedHolds(policy: Policy, state: Upstream, x: Listed)
    ensures x in Recommended(policy, state).policy.versions <==>
      x in policy.versions || x in Newer(state.tesseract, Newest(policy.versions))
  {
    DedupHolds(Sort(policy.versions), x);
    SortHolds(policy.versions, x);
  }

  lemma {:induction false} NewerSelects(upstream: seq<VersionTag>, current: Option<VersionTag>, v: VersionTag)
    requires Fits(v) && forall i :: 0 <= i < |upstream| ==> Fits(upstream[i])
    ensures Listed(Print(v)) in Newer(upstream, current) <==> v in upstream && !Passed(v, current)
  {
    PrintParses(v);
    if upstream != [] {
      var init, last := upstream[..|upstream| - 1], upstream[|upstream| - 1];
      PrintParses(last);
      NewerSelects(init, current, v);
      assert upstream == init + [last];
    }
  }

  // An upstream version is added exactly when every old entry that parses is older.
  lemma {:induction false} NewerHolds(upstream: seq<VersionTag>, prior: seq<Listed>, v: VersionTag)
    requires Fits(v) && forall i :: 0 <= i < |upstream| ==> Fits(upstream[i])
    ensures Listed(Print(v)) in Newer(upstream, Newest(prior)) <==>
              v in upstream && forall x :: x in prior && Parse(x.text).Some? ==> Older(Parse(x.text).value, v)
  {
    NewerSelects(upstream, Newest(prior), v);
    forall x | x in prior && Parse(x.text).Some? ensures Newest(prior).Some? && !Older(Newest(prior).value, KeyOf(x).value) {
      NewestIsGreatest(prior, x);
    }
    if Newest(prior).Some? {
      NewestIsListed(prior);
    }
    hide Parse, Print, Newer, Newest;
  }

  // ----- What the catalog accepts -----

  // The policy lists versions, and both its aliases are among them; an update leaves the languages,
  // which are checked as well, as they are.
  predicate Accepted(policy: Policy) {
    policy.versions != [] && Listed(policy.standard) in policy.versions && Listed(policy.latest) in policy.versions
  }

  method ValidatePolicy(policy: Policy) returns (r: Result<()>)
    ensures r.Success? <==> Accepted(policy)
  {
    if |policy.versions| == 0 {
      return Failure("policy tesseract.versions cannot be empty");
    }
    var aliases := [policy.standard, policy.latest];
    for i := 0 to 2
      invariant forall k :: 0 <= k < i ==> Listed(aliases[k]) in policy.versions
    {
      if Listed(aliases[i]) !in policy.versions {
        return Failure("alias version is not listed in tesseract.versions");
      }
    }
    assert aliases[0] == policy.standard && aliases[1] == policy.latest;
    return Success(());
  }

  lemma {:induction false} GreatestIsLast(upstream: seq<VersionTag>, v: VersionTag)
    requires Increasing(upstream) && v in upstream && forall u :: u in upstream ==> u == v || Older(u, v)
    ensures upstream[|upstream| - 1] == v
  {
    var i :| 0 <= i < |upstream| && upstream[i] == v;
    assert upstream[|upstream| - 1] in upstream;
  }

  // The aliases of an updated policy are the greatest upstream version.
  lemma {:induction false} AliasesAreGreatest(policy: Policy, state: Upstream, v: VersionTag)
    requires Increasing(state.tesseract)
    requires v in state.tesseract && forall u :: u in state.tesseract ==> u == v || Older(u, v)
    ensures var p := Recommended(policy, state).policy; p.latest == p.standard == Print(v)
  {
    GreatestIsLast(state.tesseract, v);
    hide Print, Newer, Newest, Sort, Dedup, Increasing, Older;
  }

  lemma {:induction false} LeptonicaIsGreatest(policy: Policy, state: Upstream, v: VersionTag)
    requires Increasing(state.leptonica)
    requires v in state.leptonica && forall u :: u in state.leptonica ==> u == v || Older(u, v)
    ensures Recommended(policy, state).policy.leptonica == Print(v)
  {
    GreatestIsLast(state.leptonica, v);
    hide Increasing, Older;
    LastLeptonica(policy, state);
  }

  lemma {:induction false} LastLeptonica(policy: Policy, state: Upstream)
    requires state.leptonica != []
    ensures Recommended(policy, state).policy.leptonica == Print(state.leptonica[|state.leptonica| - 1])
  {
    hide Print, Newer, Newest, Sort, Dedup;
  }

  // An updated policy is accepted exactly when the greatest upstream version was listed in so many
  // words, or is newer than all that was listed.
  lemma {:induction false} UpdateIsAcceptedExactly(policy: Policy, state: Upstream, v: VersionTag)
    requires Increasing(state.tesseract)
    requires v in state.tesseract && forall u :: u in state.tesseract ==> u == v || Older(u, v)
    ensures Accepted(Recommended(policy, state).policy) <==>
              || Listed(Print(v)) in policy.versions
              || forall x :: x in policy.versions && Parse(x.text).Some? ==> Older(Parse(x.text).value, v)
  {
    hide Recommended, Newer, Parse, Print;
    AliasesAreGreatest(policy, state, v);
    RecommendedHolds(policy, state, Listed(Print(v)));
    assert Fits(v);
    NewerHolds(state.tesseract, policy.versions, v);
  }

  // With nothing upstream, it is accepted exactly as before.
  lemma {:induction false} UpdateWithoutUpstream(policy: Policy, state: Upstream)
    requires state.tesseract == []
    ensures Accepted(Recommended(policy, state).policy) <==> Accepted(policy)
  {
    forall x: Listed ensures x in Recommended(policy, state).policy.versions <==> x in policy.versions {
      RecommendedHolds(policy, state, x);
    }
    if policy.versions != [] {
      assert policy.versions[0] in policy.versions;
    }
    hide Sort, Dedup;
  }

  // A policy that lists the greatest upstream version under its tag is accepted before the update
  // and refused after it.
  lemma {:induction false} TaggedVersionIsRefused()
    ensures var policy := Policy([Listed("v5.0.0")], "v5.0.0", "v5.0.0", "", "");
            Accepted(policy) && !Accepted(Recommended(policy, Upstream([VersionTag(5, 0, 0)], [], "")).policy)
  {
    var v := VersionTag(5, 0, 0);
    var entry := Listed("v5.0.0");
    var policy := Policy([entry], entry.text, entry.text, "", "");
    FiveIsTagged();
    hide Parse, Print, Recommended, Digits;
    assert entry in policy.versions;
    UpdateIsAcceptedExactly(policy, Upstream([v], [], ""), v);
  }

  lemma {:induction false} FiveIsTagged()
    ensures Parse("v5.0.0") == Some(VersionTag(5, 0, 0)) && Print(VersionTag(5, 0, 0)) != "v5.0.0"
  {
    var five, zero := Digits(5), Digits(0);
    assert five == "5" && zero == "0";
    WordReads(5, []);
    WordReads(0, []);
    TagParses(five, zero, zero, true);
    assert "v" + (five + ("." + (zero + ("." + zero)))) == "v5.0.0";
    assert Print(VersionTag(5, 0, 0))[0] == '5' && "v5.0.0"[0] == 'v';
    hide Parse, ParseWord;
  }

  lemma {:induction false} RecommendedInOrder(policy: Policy, state: Upstream)
    requires Increasing(state.tesseract)
    ensures InOrder(Recommended(policy, state).policy.versions)
    ensures var list := Recommended(policy, state).policy.versions;
            forall i, j :: 0 <= i < j < |list| ==>
              match (Parse(list[i].text), Parse(list[j].text))
              case (Some(a), Some(b)) => !Older(b, a)
              case (Some(_), None) => false
              case _ => true
  {
    var newer := Newer(state.tesseract, Newest(policy.versions));
    NewerComesLast(policy.versions, state.tesseract);
    SortInOrder(policy.versions + newer);
    DedupInOrder(Sort(policy.versions + newer));
  }

  // Nothing upstream is newer than the newest entry of an updated list.
  lemma {:induction false} NothingNewer(versions: seq<Listed>, upstream: seq<VersionTag>)
    requires forall i :: 0 <= i < |upstream| ==>
      exists x :: x in versions && KeyOf(x).Some? && !Older(KeyOf(x).value, upstream[i])
    ensures Newer(upstream, Newest(versions)) == []
  {
    if upstream != [] {
      var init, last := upstream[..|upstream| - 1], upstream[|upstream| - 1];
      assert forall i :: 0 <= i < |init| ==> init[i] == upstream[i];
      NothingNewer(versions, init);
      var x :| x in versions && KeyOf(x).Some? && !Older(KeyOf(x).value, last);
      NewestIsGreatest(versions, x);
    }
  }

  lemma {:induction false} RecommendedCovers(policy: Policy, state: Upstream, v: VersionTag)
    requires Increasing(state.tesseract) && v in state.tesseract
    ensures exists x ::
      x in Recommended(policy, state).policy.versions && KeyOf(x).Some? && !Older(KeyOf(x).value, v)
  {
    hide Recommended, Newer, Newest, Parse, Print;
    var prior := policy.versions;
    if Passed(v, Newest(prior)) {
      NewestIsListed(prior);
      var x :| x in prior && KeyOf(x) == Newest(prior);
      RecommendedHolds(policy, state, x);
    } else {
      NewerSelects(state.tesseract, Newest(prior), v);
      PrintParses(v);
      assert KeyOf(Listed(Print(v))) == Some(v);
      RecommendedHolds(policy, state, Listed(Print(v)));
    }
  }

  // Applying the update to its own result changes nothing.
  lemma {:induction false} RecommendedIsFixpoint(policy: Policy, state: Upstream)
    requires Increasing(state.tesseract)
    ensures
      var once := Recommended(policy, state).policy;
      Recommended(once, state) == Update(once, [], false, false)
  {
    hide Sort, Dedup, Newer, Newest, Print, KeyOf, InOrder;
    var once := Recommended(policy, state).policy;
    var prior, upstream := policy.versions, state.tesseract;
    RecommendedInOrder(policy, state);
    SortKeepsOrdered(once.versions);
    NewerComesLast(prior, upstream);
    DedupIsIdempotent(Sort(prior) + Newer(upstream, Newest(prior)));
    forall i | 0 <= i < |upstream|
      ensures exists x :: x in once.versions && KeyOf(x).Some? && !Older(KeyOf(x).value, upstream[i])
    {
      RecommendedCovers(policy, state, upstream[i]);
    }
    NothingNewer(once.versions, upstream);
    assert once.versions + [] == once.versions;
  }
}
