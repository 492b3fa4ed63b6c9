// Stripping inline test modules from a token list (scripts/check-application-ipc-callers.py,
// production_tokens). Only exact cfg(test) modules are removed, each up to the brace that closes it.
module ProductionTokens {
  import opened Wrappers

  datatype Token = Token(text: string)

  type Tokens = seq<Token>

  const HASH := Token("#")
  const OPEN := Token("[")
  const CLOSE := Token("]")
  const BEGIN := Token("{")
  const END := Token("}")
  const MOD := Token("mod")

  const TEST_ATTRIBUTE: Tokens := [HASH, OPEN, Token("cfg"), Token("("), Token("test"), Token(")"), CLOSE]

  // ----- What a test module is -----

  function Delta<T(==)>(token: T, open: T, close: T): int {
    (if token == open then 1 else 0) - (if token == close then 1 else 0)
  }

  // The nesting depth after some tokens, having started inside one bracket.
  function Depth<T(==)>(s: seq<T>, open: T, close: T): int {
    if s == [] then 1 else Depth(s[..|s| - 1], open, close) + Delta(s[|s| - 1], open, close)
  }

  // The tokens end exactly where the bracket opened before them is first closed.
  ghost predicate Closes<T(!new)>(s: seq<T>, open: T, close: T) {
    Depth(s, open, close) == 0 && forall k :: 0 <= k < |s| ==> Depth(s[..k], open, close) > 0
  }

  ghost predicate NeverCloses<T(!new)>(s: seq<T>, open: T, close: T) {
    forall k :: 0 <= k <= |s| ==> Depth(s[..k], open, close) > 0
  }

  // One further attribute, bracket-balanced.
  ghost predicate IsAttribute(s: Tokens) {
    |s| >= 2 && s[..2] == [HASH, OPEN] && Closes(s[2..], OPEN, CLOSE)
  }

  ghost predicate AreAttributes(s: Tokens)
    decreases |s|
  {
    s == [] || exists k :: 0 < k <= |s| && IsAttribute(s[..k]) && AreAttributes(s[k..])
  }

  // The exact test attribute, further attributes, and the opening of a module.
  ghost predicate IsHeader(s: Tokens) {
    && |s| >= 10 && s[..7] == TEST_ATTRIBUTE
    && AreAttributes(s[7..|s| - 3])
    && s[|s| - 3] == MOD && s[|s| - 1] == BEGIN
  }

  // A header and everything up to the brace that closes the module.
  ghost predicate IsTestModule(s: Tokens) {
    exists h :: 0 <= h <= |s| && IsHeader(s[..h]) && Closes(s[h..], BEGIN, END)
  }

  // A module that is opened and never closed.
  ghost predicate IsUnclosed(s: Tokens) {
    exists h :: 0 <= h <= |s| && IsHeader(s[..h]) && NeverCloses(s[h..], BEGIN, END)
  }

  // The depth is what the opening and closing brackets leave of the one bracket open at the start.
  lemma {:induction false} DepthCounts<T(!new)>(s: seq<T>, open: T, close: T)
    requires open != close
    ensures Depth(s, open, close) + multiset(s)[close] == 1 + multiset(s)[open]
  {
    if s != [] {
      DepthCounts(s[..|s| - 1], open, close);
      assert s == s[..|s| - 1] + [s[|s| - 1]];
    }
  }

  // The closing bracket is the first position with one more closing than opening brackets.
  lemma {:induction false} ClosesFirst<T(!new)>(s: seq<T>, open: T, close: T)
    requires open != close
    ensures Closes(s, open, close) <==>
      && multiset(s)[close] == multiset(s)[open] + 1
      && forall k :: 0 <= k < |s| ==> multiset(s[..k])[close] <= multiset(s[..k])[open]
    ensures NeverCloses(s, open, close) <==>
      forall k :: 0 <= k <= |s| ==> multiset(s[..k])[close] <= multiset(s[..k])[open]
  {
    forall k | 0 <= k <= |s|
      ensures Depth(s[..k], open, close) + multiset(s[..k])[close] == 1 + multiset(s[..k])[open]
    {
      DepthCounts(s[..k], open, close);
    }
    DepthCounts(s, open, close);
  }

  // ----- The scanner's own reading -----

  // Tokens left after a bracket is closed, and the depth left open at the end of input.
  datatype Skipped<T> = Skipped(rest: seq<T>, depth: int)

  function Skip<T(==)>(code: seq<T>, depth: int, open: T, close: T): (r: Skipped<T>)
    ensures |r.rest| <= |code|
  {
    if depth == 0 || code == [] then Skipped(code, depth)
    else Skip(code[1..], depth + Delta(code[0], open, close), open, close)
  }

  function AfterAttributes(code: Tokens): (rest: Tokens)
    ensures |rest| <= |code|
    decreases |code|
  {
    if |code| >= 2 && code[..2] == [HASH, OPEN] then AfterAttributes(Skip(code[2..], 1, OPEN, CLOSE).rest) else code
  }

  datatype Sighting = Ordinary | TestModule(rest: Tokens) | Unterminated

  function Look(code: Tokens): (s: Sighting)
    ensures s.TestModule? ==> |s.rest| < |code|
  {
    if |code| >= 7 && code[..7] == TEST_ATTRIBUTE then
      var start := AfterAttributes(code[7..]);
      if |start| > 2 && start[0] == MOD && start[2] == BEGIN then
        var body := Skip(start[3..], 1, BEGIN, END);
        if body.depth == 0 then TestModule(body.rest) else Unterminated
      else Ordinary
    else Ordinary
  }

  function Strip(code: Tokens): Result<Tokens>
    decreases |code|
  {
    if code == [] then Success([])
    else
      match Look(code)
      case Unterminated => Failure("unterminated test module")
      case TestModule(rest) => Strip(rest)
      case Ordinary =>
        match Strip(code[1..])
        case Success(out) => Success([code[0]] + out)
        case Failure(e) => Failure(e)
  }

  // ----- The reading is the definition -----

  lemma {:induction false} DropTwice<T>(s: seq<T>, i: nat, j: nat)
    requires i + j <= |s|
    ensures s[i..][j..] == s[i + j..]
  {
  }

  lemma {:induction false} TakeTwice<T>(s: seq<T>, h: nat, k: nat)
    requires h + k <= |s|
    ensures s[..h + k][..h] == s[..h] && s[..h + k][h..] == s[h..][..k]
  {
  }

  lemma {:induction false} DepthCons<T(!new)>(s: seq<T>, open: T, close: T)
    requires s != []
    ensures Depth(s, open, close) == Depth(s[1..], open, close) + Delta(s[0], open, close)
  {
    if |s| > 1 {
      DepthCons(s[..|s| - 1], open, close);
      assert s[..|s| - 1][1..] == s[1..][..|s| - 2];
    }
  }

  lemma {:induction false} DepthShift<T(!new)>(code: seq<T>, j: nat, open: T, close: T)
    requires 1 <= j <= |code|
    ensures Depth(code[..j], open, close) == Depth(code[1..][..j - 1], open, close) + Delta(code[0], open, close)
  {
    DepthCons(code[..j], open, close);
    assert code[..j][1..] == code[1..][..j - 1];
  }

  // Skipping from depth d runs to the first position where the depth is zero, or to the end.
  ghost predicate StopsAt<T(!new)>(code: seq<T>, d: int, open: T, close: T, k: nat) {
    && k <= |code| && Skip(code, d, open, close) == Skipped(code[k..], Depth(code[..k], open, close) + d - 1)
    && (forall j :: 0 <= j < k ==> Depth(code[..j], open, close) + d - 1 > 0)
    && (Depth(code[..k], open, close) + d - 1 == 0 || (k == |code| && Depth(code, open, close) + d - 1 > 0))
  }

  lemma {:induction false} StopsAtFirst<T(!new)>(code: seq<T>, d: int, open: T, close: T)
    requires d > 0 && code != [] && d + Delta(code[0], open, close) == 0
    ensures StopsAt(code, d, open, close, 1)
  {
    assert code[..1] == [code[0]] && [code[0]][..0] == [];
    assert Skip(code[1..], 0, open, close) == Skipped(code[1..], 0);
  }

  lemma {:induction false} StopsLater<T(!new)>(code: seq<T>, d: int, open: T, close: T, k: nat)
    requires d > 0 && code != [] && StopsAt(code[1..], d + Delta(code[0], open, close), open, close, k)
    ensures StopsAt(code, d, open, close, k + 1)
  {
    var rest := code[1..];
    assert Skip(code, d, open, close) == Skip(rest, d + Delta(code[0], open, close), open, close);
    hide Skip, Delta;
    DropTwice(code, 1, k);
    DepthShift(code, k + 1, open, close);
    DepthShift(code, |code|, open, close);
    assert code[..|code|] == code && rest[..|code| - 1] == rest;
    forall j | 0 <= j < k + 1 ensures Depth(code[..j], open, close) + d - 1 > 0 {
      if j > 0 {
        DepthShift(code, j, open, close);
      }
    }
  }

  lemma {:induction false} SkipStops<T(!new)>(code: seq<T>, d: int, open: T, close: T) returns (k: nat)
    requires d > 0
    ensures StopsAt(code, d, open, close, k)
    decreases |code|
  {
    if code == [] {
      k := 0;
    } else if d + Delta(code[0], open, close) == 0 {
      StopsAtFirst(code, d, open, close);
      k := 1;
    } else {
      hide StopsAt;
      var later := SkipStops(code[1..], d + Delta(code[0], open, close), open, close);
      StopsLater(code, d, open, close, later);
      k := later + 1;
    }
  }

  // Skipping from one bracket deep finds the closing bracket, and only that.
  lemma {:induction false} SkipFindsClose<T(!new)>(code: seq<T>, open: T, close: T)
    ensures var r := Skip(code, 1, open, close);
            (r.depth == 0 && exists k :: 0 <= k <= |code| && Closes(code[..k], open, close) && r.rest == code[k..])
            || (r.depth > 0 && r.rest == [] && NeverCloses(code, open, close))
  {
    var k := SkipStops(code, 1, open, close);
    assert forall j :: 0 <= j < k ==> code[..k][..j] == code[..j];
    if Depth(code[..k], open, close) != 0 {
      assert code[..|code|] == code;
    }
  }

  lemma {:induction false} CloseIsUnique<T(!new)>(code: seq<T>, open: T, close: T, k: nat)
    requires k <= |code| && Closes(code[..k], open, close)
    ensures Skip(code, 1, open, close) == Skipped(code[k..], 0)
  {
    var m := SkipStops(code, 1, open, close);
    assert forall j :: 0 <= j < k ==> code[..k][..j] == code[..j];
    assert !(m < k) && !(k < m);
  }

  lemma {:induction false} AttributeAt(code: Tokens, a: nat)
    requires |code| >= 2 && code[..2] == [HASH, OPEN] && a <= |code| - 2 && Closes(code[2..][..a], OPEN, CLOSE)
    ensures IsAttribute(code[..2 + a])
  {
    assert code[..2 + a][2..] == code[2..][..a] && code[..2 + a][..2] == code[..2];
  }

  lemma {:induction false} AttributesCons(code: Tokens, m: nat, k: nat)
    requires 0 < m <= k <= |code| && IsAttribute(code[..m]) && AreAttributes(code[m..][..k - m])
    ensures AreAttributes(code[..k])
  {
    assert code[..k][..m] == code[..m] && code[..k][m..] == code[m..][..k - m];
  }

  // An attribute in front, and where it ends.
  lemma {:induction false} OneAttribute(code: Tokens) returns (m: nat)
    requires |code| >= 2 && code[..2] == [HASH, OPEN] && AfterAttributes(code) != []
    ensures 2 <= m <= |code| && IsAttribute(code[..m]) && AfterAttributes(code) == AfterAttributes(code[m..])
  {
    hide Closes, NeverCloses, IsAttribute, Skip;
    SkipFindsClose(code[2..], OPEN, CLOSE);
    var rest := Skip(code[2..], 1, OPEN, CLOSE).rest;
    assert AfterAttributes(code) == AfterAttributes(rest);
    var a :| 0 <= a <= |code[2..]| && Closes(code[2..][..a], OPEN, CLOSE) && rest == code[2..][a..];
    hide AfterAttributes;
    AttributeAt(code, a);
    DropTwice(code, 2, a);
    m := 2 + a;
  }

  lemma {:induction false} AttributesBefore(code: Tokens) returns (k: nat)
    requires AfterAttributes(code) != []
    ensures k < |code| && AfterAttributes(code) == code[k..] && AreAttributes(code[..k])
    decreases |code|
  {
    hide AreAttributes, IsAttribute, AfterAttributes;
    if |code| >= 2 && code[..2] == [HASH, OPEN] {
      var m := OneAttribute(code);
      var b := AttributesBefore(code[m..]);
      k := m + b;
      DropTwice(code, m, b);
      AttributesCons(code, m, k);
    } else {
      k := 0;
      NoAttributes();
      NoAttributeAhead(code);
      assert code[..0] == [];
    }
  }

  lemma {:induction false} NoAttributes()
    ensures AreAttributes([])
  {
  }

  lemma {:induction false} NoAttributeAhead(code: Tokens)
    requires !(|code| >= 2 && code[..2] == [HASH, OPEN])
    ensures AfterAttributes(code) == code == code[0..]
  {
  }

  lemma {:induction false} AttributeIsSkipped(code: Tokens, a: nat)
    requires a <= |code| && IsAttribute(code[..a])
    ensures AfterAttributes(code) == AfterAttributes(code[a..])
  {
    hide Skip, Closes;
    var s := code[..a];
    assert s[..2] == code[..2];
    TakeTwice(code, 2, a - 2);
    CloseIsUnique(code[2..], OPEN, CLOSE, a - 2);
    DropTwice(code, 2, a - 2);
  }

  lemma {:induction false} AttributesAreSkipped(code: Tokens, k: nat)
    requires k < |code| && AreAttributes(code[..k]) && code[k] != HASH
    ensures AfterAttributes(code) == code[k..]
    decreases k
  {
    hide IsAttribute, AfterAttributes;
    if k > 0 {
      var s := code[..k];
      var a :| 0 < a <= |s| && IsAttribute(s[..a]) && AreAttributes(s[a..]);
      hide AreAttributes;
      TakeTwice(code, a, k - a);
      AttributeIsSkipped(code, a);
      DropTwice(code, a, k - a);
      AttributesAreSkipped(code[a..], k - a);
    } else {
      assert |code| >= 2 ==> code[..2][0] == code[0];
      NoAttributeAhead(code);
    }
  }

  lemma {:induction false} HeaderIsRead(code: Tokens, h: nat)
    requires h <= |code| && IsHeader(code[..h])
    ensures |code| >= 7 && code[..7] == TEST_ATTRIBUTE
    ensures AfterAttributes(code[7..]) == code[h - 3..] && code[h - 3] == MOD && code[h - 1] == BEGIN
  {
    var s := code[..h];
    assert s[..7] == code[..7];
    assert s[7..h - 3] == code[7..][..h - 10];
    assert code[7..][h - 10] == code[h - 3] == s[h - 3];
    assert s[h - 1] == code[h - 1];
    assert MOD.text[0] != HASH.text[0];
    AttributesAreSkipped(code[7..], h - 10);
    assert code[7..][h - 10..] == code[h - 3..];
  }

  lemma {:induction false} HeaderFrom(code: Tokens) returns (h: nat)
    requires |code| >= 7 && code[..7] == TEST_ATTRIBUTE
    requires var start := AfterAttributes(code[7..]); |start| > 2 && start[0] == MOD && start[2] == BEGIN
    ensures h <= |code| && IsHeader(code[..h]) && AfterAttributes(code[7..])[3..] == code[h..]
  {
    var k := AttributesBefore(code[7..]);
    h := 7 + k + 3;
    var s := code[..h];
    assert code[7..][k..] == code[7 + k..];
    assert s[..7] == code[..7];
    assert s[7..h - 3] == code[7..][..k];
    assert s[h - 3] == code[7 + k..][0] && s[h - 1] == code[7 + k..][2];
    assert code[7 + k..][3..] == code[h..];
  }

  ghost predicate BeginsModule(code: Tokens, k: int) {
    0 <= k <= |code| && IsTestModule(code[..k])
  }

  // What is sighted behind a header.
  function Body(code: Tokens): Sighting {
    var body := Skip(code, 1, BEGIN, END);
    if body.depth == 0 then TestModule(body.rest) else Unterminated
  }

  lemma {:induction false} HeaderDecides(code: Tokens, h: nat)
    requires h <= |code| && IsHeader(code[..h])
    ensures Look(code) == Body(code[h..])
  {
    HeaderIsRead(code, h);
    hide IsHeader, AfterAttributes, Skip;
    assert h >= 10 by {
      HeaderLength(code[..h]);
    }
    var start := code[h - 3..];
    assert start[0] == code[h - 3] && start[2] == code[h - 1];
    DropTwice(code, h - 3, 3);
  }

  lemma {:induction false} HeaderLength(s: Tokens)
    requires IsHeader(s)
    ensures |s| >= 10
  {
  }

  lemma {:induction false} SightingHasHeader(code: Tokens) returns (h: nat)
    requires !Look(code).Ordinary?
    ensures h <= |code| && IsHeader(code[..h])
  {
    hide IsHeader, AfterAttributes, Skip;
    h := HeaderFrom(code);
  }

  lemma {:induction false} BodyCloses(code: Tokens)
    ensures Body(code).Unterminated? <==> NeverCloses(code, BEGIN, END)
    ensures Body(code).TestModule? ==>
      exists k :: 0 <= k <= |code| && Closes(code[..k], BEGIN, END) && Body(code) == TestModule(code[k..])
  {
    SkipFindsClose(code, BEGIN, END);
    hide Skip, Depth;
  }

  lemma {:induction false} ModuleIsRead(code: Tokens, k: nat)
    requires BeginsModule(code, k)
    ensures Look(code) == TestModule(code[k..])
  {
    hide IsHeader, Closes, Look, Skip;
    var m := code[..k];
    var h :| 0 <= h <= |m| && IsHeader(m[..h]) && Closes(m[h..], BEGIN, END);
    TakeTwice(code, h, k - h);
    HeaderDecides(code, h);
    CloseIsUnique(code[h..], BEGIN, END, k - h);
    DropTwice(code, h, k - h);
  }

  lemma {:induction false} UnclosedIsSeen(code: Tokens)
    ensures Look(code).Unterminated? <==> IsUnclosed(code)
  {
    hide IsHeader, NeverCloses, Look, Body;
    if IsUnclosed(code) {
      var h :| 0 <= h <= |code| && IsHeader(code[..h]) && NeverCloses(code[h..], BEGIN, END);
      HeaderDecides(code, h);
      BodyCloses(code[h..]);
    }
    if Look(code).Unterminated? {
      var h := SightingHasHeader(code);
      HeaderDecides(code, h);
      BodyCloses(code[h..]);
    }
  }

  lemma {:induction false} SightedBegins(code: Tokens)
    requires Look(code).TestModule?
    ensures exists k :: BeginsModule(code, k)
  {
    hide IsHeader, Closes, Look, Body;
    var h := SightingHasHeader(code);
    HeaderDecides(code, h);
    BodyCloses(code[h..]);
    var k :| 0 <= k <= |code[h..]| && Closes(code[h..][..k], BEGIN, END);
    TakeTwice(code, h, k);
    assert BeginsModule(code, h + k);
  }

  // A module is sighted exactly where one begins, and leaves exactly what follows it.
  lemma {:induction false} LookIsExact(code: Tokens)
    ensures Look(code).Unterminated? <==> IsUnclosed(code)
    ensures Look(code).TestModule? <==> exists k :: BeginsModule(code, k)
    ensures forall k :: BeginsModule(code, k) ==> Look(code) == TestModule(code[k..])
  {
    UnclosedIsSeen(code);
    hide Look, IsTestModule, IsUnclosed;
    forall k | BeginsModule(code, k) ensures Look(code) == TestModule(code[k..]) {
      ModuleIsRead(code, k);
    }
    if Look(code).TestModule? {
      SightedBegins(code);
    }
  }

  // ----- What stripping means -----

  datatype Piece = Keep | Drop(length: nat)

  ghost predicate Ordinarily(code: Tokens) {
    !IsUnclosed(code) && forall k :: !BeginsModule(code, k)
  }

  // The code cut into dropped test modules and kept tokens at which no test module begins.
  ghost predicate Cuts(code: Tokens, out: Tokens, pieces: seq<Piece>)
    decreases |pieces|
  {
    if pieces == [] then code == [] && out == []
    else
      match pieces[0]
      case Keep => code != [] && out != [] && code[0] == out[0] && Ordinarily(code) && Cuts(code[1..], out[1..], pieces[1..])
      case Drop(n) => n <= |code| && IsTestModule(code[..n]) && Cuts(code[n..], out, pieces[1..])
  }

  lemma {:induction false} CutsIsStripped(code: Tokens, out: Tokens, pieces: seq<Piece>)
    requires Cuts(code, out, pieces)
    ensures Strip(code) == Success(out)
    decreases |pieces|
  {
    if pieces != [] {
      LookIsExact(code);
      hide Look, IsTestModule, IsUnclosed;
      match pieces[0]
      case Keep =>
        assert Look(code).Ordinary?;
        CutsIsStripped(code[1..], out[1..], pieces[1..]);
        hide Cuts;
        assert out == [out[0]] + out[1..];
      case Drop(n) =>
        assert BeginsModule(code, n);
        CutsIsStripped(code[n..], out, pieces[1..]);
        hide Cuts;
    }
  }

  lemma {:induction false} StrippedCuts(code: Tokens) returns (pieces: seq<Piece>)
    requires Strip(code).Success?
    ensures Cuts(code, Strip(code).value, pieces)
    decreases |code|
  {
    if code == [] {
      pieces := [];
    } else {
      LookIsExact(code);
      if Look(code).TestModule? {
        var n :| BeginsModule(code, n);
        var rest := StrippedCuts(code[n..]);
        pieces := [Drop(n)] + rest;
      } else {
        var rest := StrippedCuts(code[1..]);
        pieces := [Keep] + rest;
        var out := Strip(code).value;
        assert out[1..] == Strip(code[1..]).value;
      }
      assert pieces[1..] == pieces[1..];
    }
  }

  ghost predicate IsCut(code: Tokens, out: Tokens) {
    exists pieces :: Cuts(code, out, pieces)
  }

  // The output is the code with exactly the test modules removed.
  lemma {:induction false} StripIsCutting(code: Tokens, out: Tokens)
    ensures Strip(code) == Success(out) <==> IsCut(code, out)
  {
    hide Cuts, Strip;
    if Strip(code).Success? && Strip(code).value == out {
      var pieces := StrippedCuts(code);
      assert IsCut(code, out);
    }
    if IsCut(code, out) {
      var pieces :| Cuts(code, out, pieces);
      CutsIsStripped(code, out, pieces);
    }
  }

  // A closed test module in front of any tokens leaves their result unchanged.
  lemma {:induction false} ClosedModuleInFront(m: Tokens, rest: Tokens)
    requires IsTestModule(m)
    ensures Strip(m + rest) == Strip(rest)
  {
    assert (m + rest)[..|m|] == m && (m + rest)[|m|..] == rest;
    assert BeginsModule(m + rest, |m|);
    LookIsExact(m + rest);
    assert m != [];
  }

  lemma {:induction false} BalancedCloses<T(!new)>(s: seq<T>, open: T, close: T)
    requires open != close && multiset(s)[close] == multiset(s)[open]
    requires forall k :: 0 <= k <= |s| ==> multiset(s[..k])[close] <= multiset(s[..k])[open]
    ensures Closes(s + [close], open, close)
  {
    var closed := s + [close];
    forall k | 0 <= k < |closed| ensures multiset(closed[..k])[close] <= multiset(closed[..k])[open] {
      assert closed[..k] == s[..k];
    }
    ClosesFirst(closed, open, close);
  }

  lemma {:induction false} PlainHeader(name: Token)
    ensures IsHeader(TEST_ATTRIBUTE + [MOD, name, BEGIN]) && |TEST_ATTRIBUTE + [MOD, name, BEGIN]| == 10
  {
    var header := TEST_ATTRIBUTE + [MOD, name, BEGIN];
    assert header[..7] == TEST_ATTRIBUTE && header[7..|header| - 3] == [];
    NoAttributes();
  }

  // As the tokens are written: an inline test module, its body balanced up to the closing brace.
  lemma {:induction false} InlineModuleIsStripped(name: Token, body: Tokens, rest: Tokens)
    requires multiset(body)[Token("}")] == multiset(body)[Token("{")]
    requires forall k :: 0 <= k <= |body| ==> multiset(body[..k])[Token("}")] <= multiset(body[..k])[Token("{")]
    ensures Strip([Token("#"), Token("["), Token("cfg"), Token("("), Token("test"), Token(")"), Token("]"),
                   Token("mod"), name, Token("{")] + (body + [Token("}")]) + rest) == Strip(rest)
  {
    assert Token("{").text[0] != Token("}").text[0];
    BalancedCloses(body, BEGIN, END);
    PlainHeader(name);
    hide IsHeader, Closes, Strip, Depth;
    var header, closed := TEST_ATTRIBUTE + [MOD, name, BEGIN], body + [END];
    var m := header + closed;
    assert m[..10] == header && m[10..] == closed;
    assert IsTestModule(m);
    ClosedModuleInFront(m, rest);
    assert header == [Token("#"), Token("["), Token("cfg"), Token("("), Token("test"), Token(")"), Token("]"),
                      Token("mod"), name, Token("{")];
  }

  // A test module that is never closed is rejected.
  lemma {:induction false} UnclosedIsRejected(m: Tokens)
    requires IsUnclosed(m)
    ensures Strip(m).Failure?
  {
    LookIsExact(m);
  }

  // ----- The scanner -----

  // One of the counting loops: on from inside a bracket until it is closed or the code ends.
  method SkipFrom(code: Tokens, from: nat, open: Token, close: Token) returns (index: nat, depth: int)
    requires from <= |code|
    ensures from <= index <= |code| && Skip(code[from..], 1, open, close) == Skipped(code[index..], depth)
  {
    index, depth := from, 1;
    while index < |code| && depth != 0
      invariant from <= index <= |code|
      invariant Skip(code[index..], depth, open, close) == Skip(code[from..], 1, open, close)
    {
      assert code[index..][1..] == code[index + 1..];
      depth := depth + Delta(code[index], open, close);
      index := index + 1;
    }
  }

  // Past any further attributes.
  method AttributeEnd(code: Tokens, from: nat) returns (start: nat)
    requires from <= |code|
    ensures from <= start <= |code| && code[start..] == AfterAttributes(code[from..])
  {
    start := from;
    while start + 2 <= |code| && code[start..start + 2] == [HASH, OPEN]
      invariant from <= start <= |code| && AfterAttributes(code[start..]) == AfterAttributes(code[from..])
    {
      assert code[start..][..2] == code[start..start + 2] && code[start..][2..] == code[start + 2..];
      var next, _ := SkipFrom(code, start + 2, OPEN, CLOSE);
      start := next;
    }
    assert start + 2 <= |code| ==> code[start..][..2] == code[start..start + 2];
  }

  // What the loop body makes of the code at an index.
  method Sight(code: Tokens, index: nat) returns (s: Sighting, next: nat)
    requires index < |code|
    ensures s == Look(code[index..])
    ensures s.TestModule? ==> index < next <= |code| && s.rest == code[next..]
  {
    next := index;
    if index + 7 > |code| || code[index..index + 7] != TEST_ATTRIBUTE {
      assert |code[index..]| >= 7 ==> code[index..][..7] == code[index..index + 7];
      return Ordinary, next;
    }
    assert code[index..][..7] == code[index..index + 7] && code[index..][7..] == code[index + 7..];
    var start := AttributeEnd(code, index + 7);
    if start + 2 < |code| && code[start] == MOD && code[start + 2] == BEGIN {
      var end, depth := SkipFrom(code, start + 3, BEGIN, END);
      assert code[start..][3..] == code[start + 3..];
      if depth != 0 {
        return Unterminated, next;
      }
      return TestModule(code[end..]), end;
    }
    return Ordinary, next;
  }

  // The production tokens: the code without its test modules, or a rejection.
  method Production(code: Tokens) returns (r: Result<Tokens>)
    ensures r == Strip(code)
  {
    var result: Tokens := [];
    var index := 0;
    assert code[0..] == code;
    assert forall out: Tokens :: result + out == out;
    while index < |code|
      invariant 0 <= index <= |code|
      invariant Strip(code) == (match Strip(code[index..]) case Success(out) => Success(result + out) case Failure(e) => Failure(e))
      decreases |code| - index
    {
      var sighting, next := Sight(code, index);
      match sighting {
        case Unterminated => return Failure("unterminated test module");
        case TestModule(_) => index := next;
        case Ordinary =>
          assert code[index..][1..] == code[index + 1..];
          assert forall out: Tokens :: (result + [code[index]]) + out == result + ([code[index]] + out);
          result := result + [code[index]];
          index := index + 1;
      }
    }
    assert result + [] == result;
    return Success(result);
  }
}
