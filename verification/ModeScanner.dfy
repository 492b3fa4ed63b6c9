// The alternate-screen interval of a terminal journey (scripts/smoke-continuous-tui-pty.py).
//
// Interval.scan revisits a growing capture and counts private-mode control sequences
// (ESC [ ? parameters h|l, section 5.4 of ECMA-48). The journey's verdict must not depend on
// how the terminal's output was cut into reads.
module ModeScanner {
  import opened Bytes
  import opened Text
  import opened Wrappers

  const ESC: byte := 27
  const BRACKET: byte := 91
  const QUESTION: byte := 63
  const SEMICOLON: byte := 59
  const SET: byte := 104
  const RESET: byte := 108

  const ALT_MODES: set<int> := {47, 1047, 1049}
  const MAX_CAPTURE: int := 8 * 1024 * 1024

  predicate IsParameter(b: byte) {
    48 <= b <= 57 || b == SEMICOLON
  }

  // ----- The MODE pattern -----

  // A whole control sequence, as the pattern describes it.
  predicate IsSequence(seg: seq<byte>) {
    && |seg| >= 5 && seg[0] == ESC && seg[1] == BRACKET && seg[2] == QUESTION
    && (forall k :: 3 <= k < |seg| - 1 ==> IsParameter(seg[k]))
    && (seg[|seg| - 1] == SET || seg[|seg| - 1] == RESET)
  }

  // The pattern in bytes: ESC [ ?, then digits and semicolons, then h or l.
  lemma {:induction false} SequenceBytes(seg: seq<byte>)
    ensures IsSequence(seg) <==>
            && |seg| >= 5 && seg[..3] == [27, 91, 63]
            && (forall k :: 3 <= k < |seg| - 1 ==> seg[k] in [48, 49, 50, 51, 52, 53, 54, 55, 56, 57, 59])
            && seg[|seg| - 1] in [104, 108]
  {
    if |seg| >= 5 {
      assert seg[..3] == [seg[0], seg[1], seg[2]];
    }
  }

  function ParametersEnd(s: seq<byte>, i: nat): (e: nat)
    requires i <= |s|
    ensures i <= e <= |s|
    ensures forall k :: i <= k < e ==> IsParameter(s[k])
    ensures e < |s| ==> !IsParameter(s[e])
    decreases |s| - i
  {
    if i < |s| && IsParameter(s[i]) then ParametersEnd(s, i + 1) else i
  }

  // Where a match beginning at i ends, if there is one.
  function MatchAt(s: seq<byte>, i: nat): Option<nat> {
    if i + 3 <= |s| && s[i] == ESC && s[i + 1] == BRACKET && s[i + 2] == QUESTION then
      var e := ParametersEnd(s, i + 3);
      if i + 3 < e < |s| && (s[e] == SET || s[e] == RESET) then Some(e + 1) else None
    else None
  }

  datatype Match = Match(start: nat, end: nat)

  // The leftmost match at or after a position.
  function NextMatch(s: seq<byte>, from: nat): (r: Option<Match>)
    ensures r.Some? ==> from <= r.value.start < r.value.end <= |s| && MatchAt(s, r.value.start) == Some(r.value.end)
    ensures r.Some? ==> forall j :: from <= j < r.value.start ==> MatchAt(s, j).None?
    ensures r.None? ==> forall j :: from <= j < |s| ==> MatchAt(s, j).None?
    decreases |s| - from
  {
    if from >= |s| then None
    else if MatchAt(s, from).Some? then Some(Match(from, MatchAt(s, from).value))
    else NextMatch(s, from + 1)
  }

  // The greedy matcher finds exactly the sequences of the pattern, each with its only end.
  lemma {:induction false} MatchIsSequence(s: seq<byte>, i: nat, e: nat)
    ensures MatchAt(s, i) == Some(e) <==> i <= e <= |s| && IsSequence(s[i..e])
  {
    if MatchAt(s, i) == Some(e) {
      var seg := s[i..e];
      assert forall k :: 3 <= k < |seg| - 1 ==> seg[k] == s[i + k];
    }
    if i <= e <= |s| && IsSequence(s[i..e]) {
      var seg := s[i..e];
      assert seg[0] == s[i] && seg[1] == s[i + 1] && seg[2] == s[i + 2] && seg[|seg| - 1] == s[e - 1];
      assert forall k :: i + 3 <= k < e - 1 ==> s[k] == seg[k - i];
      var q := ParametersEnd(s, i + 3);
      assert !IsParameter(s[e - 1]);
    }
  }

  // Sequences do not overlap: inside one, no other begins.
  lemma {:induction false} NoneBeginsInside(s: seq<byte>, i: nat, e: nat, j: nat)
    requires MatchAt(s, i) == Some(e) && i < j < e
    ensures MatchAt(s, j).None?
  {
    MatchIsSequence(s, i, e);
    var seg := s[i..e];
    assert s[j] == seg[j - i];
  }

  // A match of a prefix is a match of the whole; a match ending inside the prefix is one of the prefix.
  lemma {:induction false} MatchInPrefix(s: seq<byte>, c: nat, i: nat, e: nat)
    requires c <= |s|
    ensures MatchAt(s[..c], i) == Some(e) <==> MatchAt(s, i) == Some(e) && e <= c
  {
    MatchIsSequence(s, i, e);
    MatchIsSequence(s[..c], i, e);
    if i <= e <= c {
      assert s[..c][i..e] == s[i..e];
    }
  }

  lemma {:induction false} NextMatchInPrefix(s: seq<byte>, c: nat, from: nat)
    requires c <= |s| && NextMatch(s[..c], from).Some?
    ensures NextMatch(s, from) == NextMatch(s[..c], from)
  {
    var m := NextMatch(s[..c], from).value;
    MatchInPrefix(s, c, m.start, m.end);
    forall j | from <= j < m.start ensures MatchAt(s, j).None? {
      if MatchAt(s, j).Some? {
        var e := MatchAt(s, j).value;
        MatchInPrefix(s, c, j, e);
        NoneBeginsInside(s, j, e, m.start);
      }
    }
  }

  // ----- What a sequence means -----

  datatype Event = Enter | Leave | Other | Malformed

  function Split(parameters: seq<byte>): (fields: seq<seq<byte>>)
    ensures fields != []
  {
    if parameters == [] then [[]]
    else
      var fields := Split(parameters[1..]);
      if parameters[0] == SEMICOLON then [[]] + fields
      else [[parameters[0]] + fields[0]] + fields[1..]
  }

  function Number(field: seq<byte>): int {
    if field == [] then 0 else 10 * Number(field[..|field| - 1]) + (field[|field| - 1] as int - 48)
  }

  // An empty field does not convert to an integer.
  function Classify(seg: seq<byte>): Event
    requires |seg| >= 5
  {
    var fields := Split(seg[3..|seg| - 1]);
    if [] in fields then Malformed
    else if !exists k :: 0 <= k < |fields| && Number(fields[k]) in ALT_MODES then Other
    else if seg[|seg| - 1] == SET then Enter
    else Leave
  }

  // ----- What a written sequence means -----

  function Ascii(s: string): (bytes: seq<byte>)
    ensures |bytes| == |s|
  {
    seq(|s|, i requires 0 <= i < |s| => (s[i] as int % 256) as byte)
  }

  lemma {:induction false} NumberIsParsed(s: string)
    requires ParseDigits(s).Some?
    ensures Number(Ascii(s)) == ParseDigits(s).value && forall b: byte :: b in Ascii(s) ==> 48 <= b <= 57
  {
    if s != [] {
      var init := s[..|s| - 1];
      NumberIsParsed(init);
      assert Ascii(s) == Ascii(init) + [Ascii(s)[|s| - 1]];
    }
  }

  // A parameter written in decimal is read as its number.
  lemma {:induction false} NumberOfDigits(n: nat)
    ensures Number(Ascii(Digits(n))) == n && forall b: byte :: b in Ascii(Digits(n)) ==> 48 <= b <= 57
  {
    hide Digits;
    DigitsParse(n);
    NumberIsParsed(Digits(n));
  }

  // Leading zeros do not count.
  lemma {:induction false} NumberOfZeroPadded(field: seq<byte>)
    ensures Number([48] + field) == Number(field)
  {
    if field == [] {
      assert [48 as byte] + field == [48];
      assert [48 as byte][..0] == [];
    } else {
      assert ([48] + field)[..|field|] == [48] + field[..|field| - 1];
      NumberOfZeroPadded(field[..|field| - 1]);
    }
  }

  // Fields with a semicolon between them.
  function Joined(fields: seq<seq<byte>>): seq<byte>
    requires fields != []
  {
    if |fields| == 1 then fields[0] else fields[0] + ([59] + Joined(fields[1..]))
  }

  lemma {:induction false} SplitBefore(field: seq<byte>, rest: seq<byte>)
    requires 59 !in field
    ensures Split(field + ([59] + rest)) == [field] + Split(rest)
  {
    var whole := field + ([59] + rest);
    if field == [] {
      assert whole[1..] == rest;
    } else {
      assert whole[1..] == field[1..] + ([59] + rest);
      SplitBefore(field[1..], rest);
      assert [field[0]] + field[1..] == field;
    }
  }

  lemma {:induction false} SplitWhole(field: seq<byte>)
    requires 59 !in field
    ensures Split(field) == [field]
  {
    if field != [] {
      SplitWhole(field[1..]);
      assert [field[0]] + field[1..] == field;
    }
  }

  // Splitting joined fields returns them.
  lemma {:induction false} SplitJoined(fields: seq<seq<byte>>)
    requires fields != [] && forall f: seq<byte> :: f in fields ==> 59 !in f
    ensures Split(Joined(fields)) == fields
  {
    assert fields[0] in fields;
    if |fields| == 1 {
      SplitWhole(fields[0]);
    } else {
      SplitBefore(fields[0], Joined(fields[1..]));
      SplitJoined(fields[1..]);
    }
  }

  function Fields(modes: seq<nat>): (fields: seq<seq<byte>>)
    ensures |fields| == |modes| && forall k :: 0 <= k < |modes| ==> fields[k] == Ascii(Digits(modes[k]))
  {
    seq(|modes|, k requires 0 <= k < |modes| => Ascii(Digits(modes[k])))
  }

  // ESC [ ? modes h, or l.
  function Written(modes: seq<nat>, final: byte): (seg: seq<byte>)
    requires modes != []
  {
    [27, 91, 63] + Joined(Fields(modes)) + [final]
  }

  lemma {:induction false} JoinedIsParameters(fields: seq<seq<byte>>)
    requires fields != [] && fields[0] != []
    requires forall f: seq<byte>, b: byte :: f in fields && b in f ==> 48 <= b <= 57
    ensures Joined(fields) != [] && forall b :: b in Joined(fields) ==> 48 <= b <= 57 || b == 59
  {
    assert fields[0] in fields;
    if |fields| > 1 {
      JoinedAreParameters(fields[1..]);
    }
  }

  lemma {:induction false} JoinedAreParameters(fields: seq<seq<byte>>)
    requires fields != []
    requires forall f: seq<byte>, b: byte :: f in fields && b in f ==> 48 <= b <= 57
    ensures forall b :: b in Joined(fields) ==> 48 <= b <= 57 || b == 59
  {
    assert fields[0] in fields;
    if |fields| > 1 {
      JoinedAreParameters(fields[1..]);
    }
  }

  lemma {:induction false} FieldsAreDigits(modes: seq<nat>)
    ensures forall f: seq<byte>, b: byte :: f in Fields(modes) && b in f ==> 48 <= b <= 57
    ensures forall f: seq<byte> :: f in Fields(modes) ==> f != [] && 59 !in f
  {
    forall f: seq<byte> | f in Fields(modes) ensures f != [] && 59 !in f && forall b: byte :: b in f ==> 48 <= b <= 57 {
      var k :| 0 <= k < |modes| && Fields(modes)[k] == f;
      NumberOfDigits(modes[k]);
    }
  }

  lemma {:induction false} WrittenIsSequence(modes: seq<nat>, final: byte)
    requires modes != [] && (final == 104 || final == 108)
    ensures IsSequence(Written(modes, final))
  {
    hide Joined;
    var fields, seg := Fields(modes), Written(modes, final);
    FieldsAreDigits(modes);
    hide Fields;
    assert fields[0] in fields;
    JoinedIsParameters(fields);
    forall k | 3 <= k < |seg| - 1 ensures IsParameter(seg[k]) {
      assert seg[k] == Joined(fields)[k - 3];
      assert seg[k] in Joined(fields);
    }
  }

  lemma {:induction false} WrittenSplits(modes: seq<nat>, final: byte)
    requires modes != []
    ensures |Written(modes, final)| >= 5
    ensures Split(Written(modes, final)[3..|Written(modes, final)| - 1]) == Fields(modes) && [] !in Fields(modes)
  {
    hide Joined, Split;
    var fields, seg := Fields(modes), Written(modes, final);
    FieldsAreDigits(modes);
    hide Fields;
    assert fields[0] in fields;
    JoinedIsParameters(fields);
    SplitJoined(fields);
    assert seg[3..|seg| - 1] == Joined(fields);
  }

  // Setting or resetting one of the alternate screens enters or leaves it, and no other mode does.
  lemma {:induction false} WrittenMeans(modes: seq<nat>, final: byte)
    requires modes != [] && (final == 104 || final == 108)
    ensures IsSequence(Written(modes, final))
    ensures Classify(Written(modes, final)) ==
      if exists k :: 0 <= k < |modes| && (modes[k] == 47 || modes[k] == 1047 || modes[k] == 1049)
      then (if final == 104 then Enter else Leave)
      else Other
  {
    WrittenIsSequence(modes, final);
    WrittenSplits(modes, final);
    var fields, seg := Fields(modes), Written(modes, final);
    assert seg[|seg| - 1] == final;
    hide Written, Split, Number, Digits, IsSequence;
    forall k | 0 <= k < |modes| ensures Number(fields[k]) == modes[k] {
      NumberOfDigits(modes[k]);
    }
  }

  lemma {:induction false} JoinedCons(first: seq<byte>, rest: seq<seq<byte>>)
    requires rest != []
    ensures Joined([first] + rest) == first + ([59] + Joined(rest))
    ensures forall b: byte :: Joined([[b] + first] + rest) == [b] + Joined([first] + rest)
  {
    assert ([first] + rest)[1..] == rest;
    forall b: byte ensures Joined([[b] + first] + rest) == [b] + Joined([first] + rest) {
      assert ([[b] + first] + rest)[1..] == rest;
    }
  }

  // Joining split fields returns the parameters: splitting loses nothing.
  lemma {:induction false} JoinedSplit(p: seq<byte>)
    ensures Joined(Split(p)) == p && forall f: seq<byte> :: f in Split(p) ==> 59 !in f
  {
    if p != [] {
      var rest := Split(p[1..]);
      JoinedSplit(p[1..]);
      assert p == [p[0]] + p[1..] && rest == [rest[0]] + rest[1..];
      if p[0] == 59 {
        JoinedCons([], rest);
        hide Joined;
      } else if |rest| > 1 {
        assert rest[0] in rest;
        JoinedCons(rest[0], rest[1..]);
        hide Joined;
      } else {
        assert rest[0] in rest;
      }
    }
  }

  // An empty field anywhere does not convert to an integer.
  lemma {:induction false} EmptyFieldIsMalformed(fields: seq<seq<byte>>, final: byte)
    requires [] in fields && Joined(fields) != [] && forall f: seq<byte> :: f in fields ==> 59 !in f
    ensures Classify([27, 91, 63] + Joined(fields) + [final]) == Malformed
  {
    var seg := [27, 91, 63] + Joined(fields) + [final];
    SplitJoined(fields);
    assert seg[3..|seg| - 1] == Joined(fields);
  }

  // ----- Counting screen events -----

  datatype Fault = ReEntered | LeftWithoutEntry | BadParameter | CaptureExceeded

  datatype Counters = Counters(enters: int, leaves: int, active: bool, end: nat)

  const START := Counters(0, 0, false, 0)

  datatype Outcome = Outcome(state: Counters, fault: Option<Fault>)

  function Apply(c: Counters, event: Event): Outcome {
    match event
    case Other => Outcome(c, None)
    case Malformed => Outcome(c, Some(BadParameter))
    case Enter =>
      var c' := c.(enters := c.enters + 1, active := true);
      Outcome(c', if c'.enters != 1 then Some(ReEntered) else None)
    case Leave =>
      var c' := c.(leaves := c.leaves + 1);
      if !c.active then Outcome(c', Some(LeftWithoutEntry)) else Outcome(c'.(active := false), None)
  }

  // One scan of a capture from a given state.
  function Scanned(s: seq<byte>, c: Counters): Outcome
    decreases |s| - c.end
  {
    match NextMatch(s, c.end)
    case None => Outcome(c, None)
    case Some(m) =>
      MatchIsSequence(s, m.start, m.end);
      var step := Apply(c.(end := m.end), Classify(s[m.start..m.end]));
      if step.fault.Some? then step else Scanned(s, step.state)
  }

  // Scanning a prefix first and the whole capture afterwards is one scan of the whole.
  lemma {:induction false} ScanResumes(s: seq<byte>, cut: nat, c: Counters)
    requires cut <= |s|
    ensures var first := Scanned(s[..cut], c);
            Scanned(s, c) == if first.fault.Some? then first else Scanned(s, first.state)
    decreases cut - c.end
  {
    if NextMatch(s[..cut], c.end).Some? {
      NextMatchInPrefix(s, cut, c.end);
      var m := NextMatch(s[..cut], c.end).value;
      MatchIsSequence(s, m.start, m.end);
      assert m.end <= cut;
      assert s[..cut][m.start..m.end] == s[m.start..m.end];
      var step := Apply(c.(end := m.end), Classify(s[m.start..m.end]));
      if step.fault.None? {
        ScanResumes(s, cut, step.state);
      }
    }
  }

  // ----- Which journeys pass -----

  // The events of a capture, in order.
  function Events(s: seq<byte>, from: nat): seq<Event>
    decreases |s| - from
  {
    match NextMatch(s, from)
    case None => []
    case Some(m) =>
      MatchIsSequence(s, m.start, m.end);
      [Classify(s[m.start..m.end])] + Events(s, m.end)
  }

  function ScreenEvents(events: seq<Event>): seq<Event> {
    if events == [] then []
    else (if events[0] == Enter || events[0] == Leave then [events[0]] else []) + ScreenEvents(events[1..])
  }

  // Where a fault-free state stands in the only journey allowed: enter, then leave.
  function Progress(c: Counters): Option<nat> {
    if (c.enters, c.leaves, c.active) == (0, 0, false) then Some(0)
    else if (c.enters, c.leaves, c.active) == (1, 0, true) then Some(1)
    else if (c.enters, c.leaves, c.active) == (1, 1, false) then Some(2)
    else None
  }

  const JOURNEY: seq<Event> := [Enter, Leave]

  lemma {:induction false} ScanFollowsEvents(s: seq<byte>, c: Counters)
    requires Progress(c).Some? && Malformed !in Events(s, c.end)
    ensures var r, done := Scanned(s, c), JOURNEY[..Progress(c).value] + ScreenEvents(Events(s, c.end));
            && (r.fault.None? <==> done <= JOURNEY)
            && (r.fault.None? ==> Progress(r.state) == Some(|done|))
    decreases |s| - c.end
  {
    hide MatchAt;
    var events := Events(s, c.end);
    if events != [] {
      var m := NextMatch(s, c.end).value;
      MatchIsSequence(s, m.start, m.end);
      var event := Classify(s[m.start..m.end]);
      var rest := Events(s, m.end);
      assert events[0] == event && events[1..] == rest;
      var step := Apply(c.(end := m.end), event);
      var p := Progress(c).value;
      var done := JOURNEY[..p] + ScreenEvents(events);
      if event == Other {
        assert step.state.end == m.end;
        assert JOURNEY[..p] + ScreenEvents(rest) == done;
        ScanFollowsEvents(s, step.state);
      } else {
        assert done[p] == event;
        if step.fault.None? {
          assert JOURNEY[..p + 1] + ScreenEvents(rest) == done;
          ScanFollowsEvents(s, step.state);
        }
      }
    }
  }

  // ----- The scanner -----

  class Interval {
    var enters: int
    var leaves: int
    var active: bool
    var end: nat

    constructor ()
      ensures State() == START
    {
      enters, leaves, active, end := 0, 0, false, 0;
    }

    function State(): Counters
      reads this
    {
      Counters(enters, leaves, active, end)
    }

    method Scan(capture: seq<byte>) returns (fault: Option<Fault>)
      modifies this
      ensures Outcome(State(), fault) == Scanned(capture, old(State()))
    {
      while NextMatch(capture, end).Some?
        invariant Scanned(capture, State()) == Scanned(capture, old(State()))
        decreases |capture| - end
      {
        var m := NextMatch(capture, end).value;
        MatchIsSequence(capture, m.start, m.end);
        end := m.end;
        var event := Classify(capture[m.start..m.end]);
        match event {
          case Malformed => return Some(BadParameter);
          case Other =>
          case Enter =>
            enters, active := enters + 1, true;
            if enters != 1 {
              return Some(ReEntered);
            }
          case Leave =>
            leaves := leaves + 1;
            if !active {
              return Some(LeftWithoutEntry);
            }
            active := false;
        }
      }
      return None;
    }

    // The closing assertion of a journey.
    function Finished(): (ok: bool)
      reads this
      ensures ok <==> Progress(State()) == Some(2)
    {
      (enters, leaves, active) == (1, 1, false)
    }
  }

  function Concat(chunks: seq<seq<byte>>): seq<byte> {
    if chunks == [] then [] else Concat(chunks[..|chunks| - 1]) + chunks[|chunks| - 1]
  }

  lemma {:induction false} ConcatPrefix(chunks: seq<seq<byte>>, n: nat)
    requires n <= |chunks|
    ensures Concat(chunks[..n]) <= Concat(chunks)
  {
    if n < |chunks| {
      var init := chunks[..|chunks| - 1];
      ConcatPrefix(init, n);
      assert init[..n] == chunks[..n];
    } else {
      assert chunks[..n] == chunks;
    }
  }

  // Every read of the journey, each followed by a scan. Below the capture bound the journey ends
  // in the state and first fault of one scan of the whole output; above it, it always fails.
  method Pump(interval: Interval, chunks: seq<seq<byte>>) returns (fault: Option<Fault>)
    requires interval.State() == START
    modifies interval
    ensures |Concat(chunks)| <= 8_388_608 ==> Outcome(interval.State(), fault) == Scanned(Concat(chunks), START)
    ensures |Concat(chunks)| > 8_388_608 ==> fault.Some?
    ensures fault.Some? && fault != Some(CaptureExceeded) ==> Outcome(interval.State(), fault) == Scanned(Concat(chunks), START)
  {
    var capture: seq<byte> := [];
    for i := 0 to |chunks|
      invariant capture == Concat(chunks[..i]) && |capture| <= MAX_CAPTURE
      invariant Outcome(interval.State(), None) == Scanned(capture, START)
    {
      var before := capture;
      capture := capture + chunks[i];
      assert chunks[..i + 1][..i] == chunks[..i];
      ConcatPrefix(chunks, i + 1);
      if |capture| > MAX_CAPTURE {
        return Some(CaptureExceeded);
      }
      fault := interval.Scan(capture);
      assert capture[..|before|] == before;
      ScanResumes(capture, |before|, START);
      if fault.Some? {
        var whole := Concat(chunks);
        assert whole[..|capture|] == capture;
        ScanResumes(whole, |capture|, START);
        return;
      }
    }
    assert chunks[..|chunks|] == chunks;
    return None;
  }

  // A journey within the bound and with well-formed parameters passes exactly when its
  // alternate-screen events are enter, leave; it is fault-free exactly on the prefixes of that.
  method Journey(interval: Interval, chunks: seq<seq<byte>>) returns (fault: Option<Fault>, finished: bool)
    requires interval.State() == START
    requires |Concat(chunks)| <= 8_388_608 && Malformed !in Events(Concat(chunks), 0)
    modifies interval
    ensures fault.None? <==> ScreenEvents(Events(Concat(chunks), 0)) <= JOURNEY
    ensures finished <==> ScreenEvents(Events(Concat(chunks), 0)) == JOURNEY
  {
    ScanFollowsEvents(Concat(chunks), START);
    assert JOURNEY[..0] + ScreenEvents(Events(Concat(chunks), 0)) == ScreenEvents(Events(Concat(chunks), 0));
    fault := Pump(interval, chunks);
    finished := fault.None? && interval.Finished();
  }

  // ----- An ordinary journey -----

  ghost predicate Plain(s: seq<byte>) {
    forall i :: 0 <= i < |s| ==> s[i] != 27
  }

  // Plain text before a sequence is passed over.
  lemma {:induction false} EventsPass(s: seq<byte>, from: nat, start: nat, end: nat)
    requires from <= start && start < end <= |s| && Plain(s[from..start]) && IsSequence(s[start..end])
    ensures Events(s, from) == [Classify(s[start..end])] + Events(s, end)
    decreases start - from
  {
    MatchIsSequence(s, start, end);
    NextIs(s, from, start, end);
  }

  lemma {:induction false} NextIs(s: seq<byte>, from: nat, start: nat, end: nat)
    requires from <= start < end <= |s| && Plain(s[from..start]) && MatchAt(s, start) == Some(end)
    ensures NextMatch(s, from) == Some(Match(start, end))
  {
    forall j | from <= j < start ensures MatchAt(s, j).None? {
      assert s[j] == s[from..start][j - from];
    }
    var r := NextMatch(s, from);
    assert r.Some?;
    assert !(r.value.start < start) && !(start < r.value.start);
  }

  lemma {:induction false} NoEvents(s: seq<byte>, from: nat)
    requires from <= |s| && Plain(s[from..])
    ensures Events(s, from) == []
  {
    forall j | from <= j < |s| ensures MatchAt(s, j).None? {
      assert s[j] == s[from..][j - from];
    }
  }

  lemma {:induction false} TwoSequences(s: seq<byte>, a: nat, b: nat, c: nat, d: nat)
    requires a < b <= c < d <= |s| && Plain(s[0..a]) && Plain(s[b..c]) && Plain(s[d..])
    requires IsSequence(s[a..b]) && IsSequence(s[c..d])
    ensures Events(s, 0) == [Classify(s[a..b]), Classify(s[c..d])]
  {
    EventsPass(s, 0, a, b);
    EventsPass(s, b, c, d);
    NoEvents(s, d);
  }

  // Plain output, the alternate screen set, plain output, the screen reset, plain output: one interval.
  lemma {:induction false} OrdinaryJourney(s: seq<byte>, a: nat, b: nat, c: nat, d: nat)
    requires a < b <= c < d <= |s| && Plain(s[0..a]) && Plain(s[b..c]) && Plain(s[d..])
    requires s[a..b] == Written([1049], 104) && s[c..d] == Written([1049], 108)
    ensures Events(s, 0) == [Enter, Leave]
  {
    WrittenMeans([1049], 104);
    WrittenMeans([1049], 108);
    assert [1049][0] == 1049;
    TwoSequences(s, a, b, c, d);
  }
}
