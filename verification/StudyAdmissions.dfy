// What admissions add up to over whole runs of the study protocol.
module StudyAdmissions {
  import opened StudyProtocol
  import opened Wrappers

  // ----- Context pairs -----

  // A pair shares one receipt, so in every run its two trials have at most one dispatch together.
  lemma {:induction false} PairIsDispatchedOnce(trials: seq<Trial>, jobs: map<string, string>, run: seq<Step>, i: nat, j: nat, p: nat, q: nat)
    requires Partners(trials, i, j)
    requires var log := After(trials, jobs, run).log;
             && p < |log| && log[p].Dispatched? && (log[p].trial == i || log[p].trial == j)
             && q < |log| && log[q].Dispatched? && (log[q].trial == i || log[q].trial == j)
    ensures p == q
  {
    EveryRunIsSafe(trials, jobs, run);
    var log := After(trials, jobs, run).log;
    assert DispatchAt(trials, log, p, trials[i].receiptFile) && DispatchAt(trials, log, q, trials[i].receiptFile);
  }

  // ----- Admission limits -----

  function ClaimsBy(log: seq<Event>, d: nat): nat {
    if log == [] then 0
    else ClaimsBy(log[..|log| - 1], d) + if log[|log| - 1].Claimed? && log[|log| - 1].driver == d then 1 else 0
  }

  predicate Selected(trials: seq<Trial>, p: Process, i: nat) {
    p.mode.Running? && i < |trials| && i in p.mode.wanted && !trials[i].gap
  }

  // The trial a driver is about to admit, if it is on its way to a claim.
  predicate Admitting(pc: Pc) {
    (pc.Settle? && pc.after.Before?) || pc.Check? || pc.Claim?
  }

  function Candidate(pc: Pc): nat
    requires Admitting(pc)
  {
    if pc.Settle? then pc.after.trial else pc.trial
  }

  predicate WithinLimit(trials: seq<Trial>, p: Process) {
    && p.admitted <= LimitOf(p)
    && (Admitting(p.pc) ==> p.admitted < LimitOf(p) && Selected(trials, p, Candidate(p.pc)))
  }

  // Every driver stays within its limit, and its count is the number of its claims.
  ghost predicate Counted(trials: seq<Trial>, s: State) {
    forall d :: CountedFor(trials, s, d)
  }

  predicate CountedFor(trials: seq<Trial>, s: State, d: nat) {
    if d in s.procs then WithinLimit(trials, s.procs[d]) && s.procs[d].admitted == ClaimsBy(s.log, d)
    else ClaimsBy(s.log, d) == 0
  }

  ghost predicate ClaimSelected(trials: seq<Trial>, s: State, e: Event) {
    e.driver in s.procs && Selected(trials, s.procs[e.driver], e.trial)
  }

  // Every claim is of a trial its driver selected and that has no gap, under well-formed pairs.
  ghost predicate ClaimsSelected(trials: seq<Trial>, s: State) {
    && (forall q :: 0 <= q < |s.log| && s.log[q].Claimed? ==> ClaimSelected(trials, s, s.log[q]))
    && (forall d :: d in s.procs && s.procs[d].mode.Running? ==> ValidPairs(trials))
  }

  lemma {:induction false} MoveStaysWithin(trials: seq<Trial>, s: State, p: Process, c: Choice)
    requires WithinLimit(trials, p)
    ensures var m := NextMove(trials, s, p, c);
            && WithinLimit(trials, Moved(p, m))
            && (m.Create? ==> Selected(trials, p, m.trial))
  {
  }

  lemma {:induction false} ClaimsBySnoc(log: seq<Event>, e: Event, d: nat)
    ensures ClaimsBy(log + [e], d) == ClaimsBy(log, d) + if e.Claimed? && e.driver == d then 1 else 0
  {
    assert (log + [e])[..|log|] == log;
  }

  function EventOf(d: nat, m: Move): seq<Event> {
    match m
    case Create(_, i) => [Claimed(d, i)]
    case Launch(i) => [Dispatched(d, i)]
    case _ => []
  }

  lemma {:induction false} CountAfter(log: seq<Event>, d: nat, m: Move, e: nat)
    ensures ClaimsBy(log + EventOf(d, m), e) == ClaimsBy(log, e) + if m.Create? && e == d then 1 else 0
  {
    match m
    case Create(_, i) => ClaimsBySnoc(log, Claimed(d, i), e);
    case Launch(i) => ClaimsBySnoc(log, Dispatched(d, i), e);
    case _ => assert log + [] == log;
  }

  lemma {:induction false} DriveEffect(trials: seq<Trial>, s: State, d: nat, c: Choice)
    requires d in s.procs
    ensures var m := NextMove(trials, s, s.procs[d], c);
            var s' := Drive(trials, s, d, c);
            && s'.log == s.log + EventOf(d, m)
            && s'.procs == s.procs[d := Moved(s.procs[d], m)]
  {
    hide NextMove;
    assert s.log + [] == s.log;
  }

  lemma {:induction false} DriveKeepsCounted(trials: seq<Trial>, s: State, d: nat, c: Choice)
    requires Counted(trials, s) && d in s.procs
    ensures Counted(trials, Drive(trials, s, d, c))
  {
    var s', p := Drive(trials, s, d, c), s.procs[d];
    var m := NextMove(trials, s, p, c);
    DriveEffect(trials, s, d, c);
    assert CountedFor(trials, s, d);
    MoveStaysWithin(trials, s, p, c);
    assert Moved(p, m).admitted == p.admitted + if m.Create? then 1 else 0;
    hide NextMove, WithinLimit, ClaimsBy, Drive, Moved, EventOf;
    forall e ensures CountedFor(trials, s', e) {
      assert CountedFor(trials, s, e);
      CountAfter(s.log, d, m, e);
    }
  }

  lemma {:induction false} DriveKeepsSelected(trials: seq<Trial>, s: State, d: nat, c: Choice)
    requires ClaimsSelected(trials, s) && d in s.procs && WithinLimit(trials, s.procs[d])
    ensures ClaimsSelected(trials, Drive(trials, s, d, c))
  {
    var s', p := Drive(trials, s, d, c), s.procs[d];
    var m := NextMove(trials, s, p, c);
    MoveStaysWithin(trials, s, p, c);
    hide NextMove, WithinLimit, ValidPairs;
    assert s'.log == s.log + EventOf(d, m);
    forall q | 0 <= q < |s'.log| && s'.log[q].Claimed? ensures ClaimSelected(trials, s', s'.log[q]) {
      if q < |s.log| {
        assert s'.log[q] == s.log[q] && ClaimSelected(trials, s, s.log[q]);
      }
    }
  }

  lemma {:induction false} OtherStepKeepsLimited(trials: seq<Trial>, s: State, step: Step)
    requires Counted(trials, s) && ClaimsSelected(trials, s) && Enabled(trials, s, step) && !step.Advance?
    ensures Counted(trials, Perform(trials, s, step)) && ClaimsSelected(trials, Perform(trials, s, step))
  {
    var s' := Perform(trials, s, step);
    hide ValidPairs, ClaimsBy;
    forall e ensures CountedFor(trials, s', e) {
      assert CountedFor(trials, s, e);
    }
    forall q | 0 <= q < |s'.log| && s'.log[q].Claimed? ensures ClaimSelected(trials, s', s'.log[q]) {
      assert ClaimSelected(trials, s, s.log[q]);
    }
  }

  // In every run, each driver admits at most its limit, and only trials it selected and that have
  // no gap; nothing is admitted unless the context pairs are well formed.
  lemma {:induction false} EveryRunIsLimited(trials: seq<Trial>, jobs: map<string, string>, run: seq<Step>)
    ensures Counted(trials, After(trials, jobs, run)) && ClaimsSelected(trials, After(trials, jobs, run))
  {
    if run != [] {
      var n := |run| - 1;
      EveryRunIsLimited(trials, jobs, run[..n]);
      var s, step := After(trials, jobs, run[..n]), run[n];
      if Enabled(trials, s, step) {
        if step.Advance? {
          assert CountedFor(trials, s, step.driver);
          DriveKeepsCounted(trials, s, step.driver, step.choice);
          DriveKeepsSelected(trials, s, step.driver, step.choice);
        } else {
          OtherStepKeepsLimited(trials, s, step);
        }
      }
    }
  }

  // ----- At most one unsettled admission -----

  // All unsettled admissions share one receipt.
  ghost predicate OneOpen(trials: seq<Trial>, s: State) {
    forall i, j :: 0 <= i < |trials| && 0 <= j < |trials| && Open(trials[i], s) && Open(trials[j], s) ==>
      trials[i].receiptFile == trials[j].receiptFile
  }

  ghost predicate NoneOpen(trials: seq<Trial>, s: State, upto: nat) {
    forall i :: 0 <= i < |trials| && i < upto ==> !Open(trials[i], s)
  }

  // The report proves some admission terminal.
  ghost predicate Vouches(trials: seq<Trial>, s: State, file: string) {
    file in s.reports && exists i :: 0 <= i < |trials| && trials[i].reportFile == file && Proves(s.reports[file], trials[i])
  }

  // The step does not rewrite a report that proves an admission terminal.
  ghost predicate KeepsProof(trials: seq<Trial>, s: State, step: Step) {
    step.AdapterReports? && step.trial < |trials| ==> !Vouches(trials, s, trials[step.trial].reportFile)
  }

  ghost predicate KeepsProofs(trials: seq<Trial>, jobs: map<string, string>, run: seq<Step>) {
    forall n :: 0 <= n < |run| ==> KeepsProof(trials, After(trials, jobs, run[..n]), run[n])
  }

  // What a step must not do to the open admissions.
  ghost predicate OpensNothing(trials: seq<Trial>, s: State, s': State) {
    forall i :: 0 <= i < |trials| && Open(trials[i], s') ==> Open(trials[i], s)
  }

  // The step claims a receipt, and the admission it makes is unsettled.
  ghost predicate Opens(trials: seq<Trial>, s: State, step: Step) {
    step.Advance? && step.driver in s.procs
    && var m := NextMove(trials, s, s.procs[step.driver], step.choice);
       m.Create? && exists i :: 0 <= i < |trials| && trials[i].receiptFile == m.receiptFile
                                && Open(trials[i], Perform(trials, s, step))
  }

  lemma {:induction false} CommitOpensNothing(trials: seq<Trial>, s: State, d: nat, p: Process, m: Move)
    requires !m.Create? && (m.Fill? ==> m.receiptFile in s.receipts)
    ensures OpensNothing(trials, s, Commit(s, d, p, m))
  {
  }

  // Only a claim makes an admission unsettled.
  lemma {:induction false} QuietOpensNothing(trials: seq<Trial>, s: State, step: Step)
    requires Safe(trials, s) && KeepsProof(trials, s, step)
    requires step.Advance? && step.driver in s.procs ==>
               !NextMove(trials, s, s.procs[step.driver], step.choice).Create?
    ensures OpensNothing(trials, s, Perform(trials, s, step))
  {
    if step.Advance? && step.driver in s.procs {
      var p := s.procs[step.driver];
      var m := NextMove(trials, s, p, step.choice);
      MoveFacts(trials, s, p, step.choice);
      if m.Fill? {
        HeldReceiptExists(trials, s, step.driver, m.trial);
      }
      CommitOpensNothing(trials, s, step.driver, Moved(p, m), m);
    }
  }

  lemma {:induction false} ClaimOpens(trials: seq<Trial>, s: State, step: Step)
    requires step.Advance? && step.driver in s.procs
    requires NextMove(trials, s, s.procs[step.driver], step.choice).Create?
    ensures var file := NextMove(trials, s, s.procs[step.driver], step.choice).receiptFile;
            file !in s.receipts
            && forall i :: 0 <= i < |trials| && trials[i].receiptFile != file ==>
                 (Open(trials[i], Perform(trials, s, step)) <==> Open(trials[i], s))
  {
    MoveFacts(trials, s, s.procs[step.driver], step.choice);
  }

  // One step keeps at most one admission unsettled exactly when it opens none beside another.
  lemma {:induction false} StepKeepsOneOpen(trials: seq<Trial>, s: State, step: Step)
    requires Safe(trials, s) && KeepsProof(trials, s, step) && OneOpen(trials, s)
    ensures OneOpen(trials, Perform(trials, s, step)) <==> (Opens(trials, s, step) ==> NoneOpen(trials, s, |trials|))
  {
    var s' := Perform(trials, s, step);
    if step.Advance? && step.driver in s.procs && NextMove(trials, s, s.procs[step.driver], step.choice).Create? {
      ClaimOpens(trials, s, step);
      var file := NextMove(trials, s, s.procs[step.driver], step.choice).receiptFile;
      hide NextMove, Perform, Safe;
      forall i | 0 <= i < |trials| && trials[i].receiptFile == file ensures !Open(trials[i], s) {
      }
    } else {
      QuietOpensNothing(trials, s, step);
      hide NextMove, Perform, Safe;
    }
  }

  ghost predicate OneOpenThroughout(trials: seq<Trial>, jobs: map<string, string>, run: seq<Step>) {
    forall n :: 0 <= n <= |run| ==> OneOpen(trials, After(trials, jobs, run[..n]))
  }

  ghost predicate ClaimsWhenSettled(trials: seq<Trial>, jobs: map<string, string>, run: seq<Step>) {
    forall n :: 0 <= n < |run| && Opens(trials, After(trials, jobs, run[..n]), run[n]) ==>
      NoneOpen(trials, After(trials, jobs, run[..n]), |trials|)
  }

  // Whatever the drivers, at most one admission is ever unsettled if and only if every claim that
  // opens an admission is made while none is open.
  lemma {:induction false} OneOpenExactly(trials: seq<Trial>, jobs: map<string, string>, run: seq<Step>)
    requires KeepsProofs(trials, jobs, run)
    ensures OneOpenThroughout(trials, jobs, run) <==> ClaimsWhenSettled(trials, jobs, run)
  {
    hide OneOpen, NoneOpen, Opens, Safe, Perform, KeepsProof, OneOpenThroughout, ClaimsWhenSettled;
    ThroughoutBy(trials, jobs, run);
    if run == [] {
      NothingOpen(trials, jobs);
    } else {
      var n := |run| - 1;
      var before := run[..n];
      forall k | 0 <= k < n ensures before[..k] == run[..k] {
      }
      OneOpenExactly(trials, jobs, before);
      EveryRunIsSafe(trials, jobs, before);
      ThroughoutBy(trials, jobs, before);
      if OneOpen(trials, After(trials, jobs, before)) {
        StepKeepsOneOpen(trials, After(trials, jobs, before), run[n]);
      }
    }
  }

  // Both conditions, one step at a time.
  lemma {:induction false} ThroughoutBy(trials: seq<Trial>, jobs: map<string, string>, run: seq<Step>)
    ensures OneOpenThroughout(trials, jobs, run) ==> OneOpen(trials, After(trials, jobs, run))
    ensures run == [] ==> ClaimsWhenSettled(trials, jobs, run)
                          && (OneOpen(trials, After(trials, jobs, run)) ==> OneOpenThroughout(trials, jobs, run))
    ensures run != [] ==>
      var before, step := run[..|run| - 1], run[|run| - 1];
      var s := After(trials, jobs, before);
      && (OneOpenThroughout(trials, jobs, run) <==>
          OneOpenThroughout(trials, jobs, before) && OneOpen(trials, After(trials, jobs, run)))
      && (ClaimsWhenSettled(trials, jobs, run) <==>
          ClaimsWhenSettled(trials, jobs, before) && (Opens(trials, s, step) ==> NoneOpen(trials, s, |trials|)))
  {
    hide OneOpen, NoneOpen, Opens, After;
    assert run[..|run|] == run;
    if run != [] {
      var n := |run| - 1;
      var before := run[..n];
      assert forall k :: 0 <= k < n ==> before[k] == run[k];
      forall k | 0 <= k <= n ensures before[..k] == run[..k] {
      }
    }
  }

  lemma {:induction false} NothingOpen(trials: seq<Trial>, jobs: map<string, string>)
    ensures OneOpen(trials, After(trials, jobs, []))
  {
  }

  // ----- One admitting driver at a time -----

  predicate Live(s: State, d: nat) {
    d in s.procs && !s.procs[d].pc.Finished? && !s.procs[d].pc.Failed?
  }

  // A driver that may still admit; reconciling and rebinding drivers never do.
  predicate Admits(s: State, d: nat) {
    Live(s, d) && s.procs[d].mode.Running?
  }

  // A run is started only while no other run is alive; reconciles and rebinds may overlap anything.
  ghost predicate RunsApart(trials: seq<Trial>, jobs: map<string, string>, run: seq<Step>) {
    forall n :: 0 <= n < |run| && run[n].StartRun? ==> forall d :: !Admits(After(trials, jobs, run[..n]), d)
  }

  // What the settlement check of a driver has established so far.
  ghost predicate Checked(trials: seq<Trial>, s: State, pc: Pc) {
    match pc
    case Settle(upto, _) => NoneOpen(trials, s, upto)
    case Check(_) => NoneOpen(trials, s, |trials|)
    case Claim(_) => NoneOpen(trials, s, |trials|)
    case _ => true
  }

  // Only admissions that can be proved terminal are ever followed by another.
  ghost predicate UnprovableIsLast(trials: seq<Trial>, s: State) {
    forall p, q :: 0 <= p < q < |s.log| && s.log[p].Claimed? && s.log[q].Claimed? && s.log[p].trial < |trials| ==>
      trials[s.log[p].trial].adapter == Normal || trials[s.log[p].trial].adapter == Context
  }

  ghost predicate Orderly(trials: seq<Trial>, s: State) {
    && (forall d, e :: Admits(s, d) && Admits(s, e) ==> d == e)
    && OneOpen(trials, s)
    && (forall d :: d in s.procs ==> Admits(s, d) ==> Checked(trials, s, s.procs[d].pc))
    && UnprovableIsLast(trials, s)
  }

  // Receipts appear only through claims; a step that claims nothing and keeps every terminal proof
  // keeps the order.
  lemma {:induction false} StaysOrderly(trials: seq<Trial>, s: State, s': State)
    requires Orderly(trials, s) && OpensNothing(trials, s, s') && UnprovableIsLast(trials, s')
    requires forall d :: Admits(s', d) ==> Admits(s, d)
    requires forall d :: d in s'.procs && Admits(s', d) ==>
               Checked(trials, s', s'.procs[d].pc) || s'.procs[d].pc == s.procs[d].pc
    ensures Orderly(trials, s')
  {
    forall i, j | 0 <= i < |trials| && 0 <= j < |trials| && Open(trials[i], s') && Open(trials[j], s')
      ensures trials[i].receiptFile == trials[j].receiptFile
    {
      assert Open(trials[i], s) && Open(trials[j], s);
    }
  }

  lemma {:induction false} MoveIsChecked(trials: seq<Trial>, s: State, p: Process, c: Choice)
    requires Checked(trials, s, p.pc)
    ensures var m := NextMove(trials, s, p, c);
            Checked(trials, s, Moved(p, m).pc) && (m.Create? ==> NoneOpen(trials, s, |trials|))
  {
  }

  lemma {:induction false} CheckedLater(trials: seq<Trial>, s: State, s': State, pc: Pc)
    requires Checked(trials, s, pc) && OpensNothing(trials, s, s')
    ensures Checked(trials, s', pc)
  {
  }

  lemma {:induction false} ClaimIsOrderly(trials: seq<Trial>, s: State, d: nat, p: Process, i: nat)
    requires Safe(trials, s) && Orderly(trials, s) && Admits(s, d) && NoneOpen(trials, s, |trials|)
    requires i < |trials| && p.pc == Write(i)
    ensures Orderly(trials, Commit(s, d, p, Create(trials[i].receiptFile, i)))
  {
    var s' := Commit(s, d, p, Create(trials[i].receiptFile, i));
    assert forall e :: Admits(s', e) ==> Admits(s, e);
    forall j | 0 <= j < |trials| && Open(trials[j], s') ensures trials[j].receiptFile == trials[i].receiptFile {
      assert !Open(trials[j], s);
    }
    forall p, q | 0 <= p < q < |s'.log| && s'.log[p].Claimed? && s'.log[q].Claimed? && s'.log[p].trial < |trials|
      ensures trials[s'.log[p].trial].adapter == Normal || trials[s'.log[p].trial].adapter == Context
    {
      assert s'.log[p] == s.log[p];
      if q == |s.log| {
        var t := trials[s.log[p].trial];
        assert ClaimAt(trials, s.log, p, t.receiptFile);
        assert !Open(t, s);
      } else {
        assert s'.log[q] == s.log[q];
      }
    }
  }

  lemma {:induction false} LogStaysLast(trials: seq<Trial>, s: State, s': State)
    requires UnprovableIsLast(trials, s)
    requires s'.log == s.log || exists e: Event :: e.Dispatched? && s'.log == s.log + [e]
    ensures UnprovableIsLast(trials, s')
  {
    forall p, q | 0 <= p < q < |s'.log| && s'.log[p].Claimed? && s'.log[q].Claimed? && s'.log[p].trial < |trials|
      ensures trials[s'.log[p].trial].adapter == Normal || trials[s'.log[p].trial].adapter == Context
    {
      assert s'.log[p] == s.log[p] && s'.log[q] == s.log[q];
    }
  }

  // Only a run that is alive claims.
  lemma {:induction false} ClaimerAdmits(trials: seq<Trial>, s: State, d: nat, c: Choice)
    requires Counted(trials, s) && d in s.procs && NextMove(trials, s, s.procs[d], c).Create?
    ensures Admits(s, d)
  {
    assert CountedFor(trials, s, d);
  }

  lemma {:induction false} DriveIsOrderly(trials: seq<Trial>, s: State, d: nat, c: Choice)
    requires Safe(trials, s) && Counted(trials, s) && Orderly(trials, s) && d in s.procs
    ensures Orderly(trials, Drive(trials, s, d, c))
  {
    hide NextMove, OneOpen, Checked, NoneOpen, OpensNothing, UnprovableIsLast;
    var p := s.procs[d];
    var m := NextMove(trials, s, p, c);
    var s' := Commit(s, d, Moved(p, m), m);
    MoveFacts(trials, s, p, c);
    if m.Create? {
      ClaimerAdmits(trials, s, d, c);
      MoveIsChecked(trials, s, p, c);
      ClaimIsOrderly(trials, s, d, Moved(p, m), m.trial);
    } else {
      if m.Fill? {
        HeldReceiptExists(trials, s, d, m.trial);
      }
      CommitOpensNothing(trials, s, d, Moved(p, m), m);
      if Admits(s, d) {
        MoveIsChecked(trials, s, p, c);
        CheckedLater(trials, s, s', Moved(p, m).pc);
      }
      LogStaysLast(trials, s, s');
      EndedStaysEnded(trials, s, p, c);
      hide Safe, Counted;
      StaysOrderly(trials, s, s');
    }
  }

  // A driver that has ended never moves again, and none changes its mode.
  lemma {:induction false} EndedStaysEnded(trials: seq<Trial>, s: State, p: Process, c: Choice)
    ensures var m := NextMove(trials, s, p, c);
            && Moved(p, m).mode == p.mode
            && (p.pc.Finished? || p.pc.Failed? ==> Moved(p, m) == p && m == GoTo(p.pc))
  {
  }

  // While runs are started one at a time, at most one admission is ever unsettled, and an eval or
  // navigation admission, which no report settles, is the last one ever made.
  lemma {:induction false} SerialRunsAreOrderly(trials: seq<Trial>, jobs: map<string, string>, run: seq<Step>)
    requires RunsApart(trials, jobs, run) && KeepsProofs(trials, jobs, run)
    ensures Orderly(trials, After(trials, jobs, run))
  {
    if run != [] {
      var n := |run| - 1;
      var before := run[..n];
      forall k | 0 <= k < n ensures before[..k] == run[..k] {
      }
      SerialRunsAreOrderly(trials, jobs, before);
      EveryRunIsSafe(trials, jobs, before);
      EveryRunIsLimited(trials, jobs, before);
      var s, step := After(trials, jobs, before), run[n];
      assert KeepsProof(trials, s, step);
      if Enabled(trials, s, step) {
        if step.Advance? {
          DriveIsOrderly(trials, s, step.driver, step.choice);
        } else {
          OutsideStepIsOrderly(trials, s, step);
        }
      }
    }
  }

  lemma {:induction false} OutsideStepIsOrderly(trials: seq<Trial>, s: State, step: Step)
    requires Safe(trials, s) && Orderly(trials, s) && Enabled(trials, s, step) && !step.Advance?
    requires KeepsProof(trials, s, step) && (step.StartRun? ==> forall d :: !Admits(s, d))
    ensures Orderly(trials, Perform(trials, s, step))
  {
    var s' := Perform(trials, s, step);
    QuietOpensNothing(trials, s, step);
    if step.StartRun? {
      forall e | e != step.driver ensures !Admits(s', e) {
        assert !Admits(s, e);
      }
      forall i | 0 <= i < |trials| ensures Open(trials[i], s') <==> Open(trials[i], s) {
      }
    } else {
      hide Checked;
      StaysOrderly(trials, s, s');
    }
  }

  // ----- Two runs at once -----

  function Plain(id: string): Trial {
    Trial(id, id, 0, "on", Normal, None, None, false, id + ".job", "hash", id + ".receipt", id + ".report", id + ".result")
  }

  const TWO: seq<Trial> := [Plain("a"), Plain("b")]
  const JOBS: map<string, string> := map["a.job" := "hash", "b.job" := "hash"]

  const BOTH: seq<Step> := [StartRun(0, 1, {0}), StartRun(1, 1, {1})]

  function Repeat(step: Step, n: nat): seq<Step> {
    if n == 0 then [] else Repeat(step, n - 1) + [step]
  }

  // Both runs pass the settlement check before either claims.
  function Overlap(): seq<Step> {
    BOTH + Repeat(Advance(0, Proceed), 11) + Repeat(Advance(1, Proceed), 12) + [Advance(0, Proceed)]
    + [Advance(1, Proceed)]
  }

  ghost predicate Untouched(s: State) {
    s.receipts == map[] && s.reports == map[] && s.results == {} && s.jobs == JOBS && s.log == []
  }

  lemma {:induction false} OneMore(run: seq<Step>, step: Step)
    ensures After(TWO, JOBS, run + [step]) == Perform(TWO, After(TWO, JOBS, run), step)
  {
    assert (run + [step])[..|run|] == run;
  }

  // The driver's path through a study no one has touched.
  ghost predicate Leads(p: Process, pcs: seq<Pc>) {
    forall i, s :: 0 <= i < |pcs| - 1 && Untouched(s) ==>
      NextMove(TWO, s, p.(pc := pcs[i]), Proceed) == GoTo(pcs[i + 1])
  }

  lemma {:induction false} FollowPath(run: seq<Step>, d: nat, pcs: seq<Pc>)
    requires Untouched(After(TWO, JOBS, run)) && d in After(TWO, JOBS, run).procs && pcs != []
    requires var p := After(TWO, JOBS, run).procs[d]; p.pc == pcs[0] && Leads(p, pcs)
    ensures var s, s' := After(TWO, JOBS, run), After(TWO, JOBS, run + Repeat(Advance(d, Proceed), |pcs| - 1));
            s' == s.(procs := s.procs[d := s.procs[d].(pc := pcs[|pcs| - 1])])
  {
    hide NextMove;
    var s := After(TWO, JOBS, run);
    var p := s.procs[d];
    if |pcs| == 1 {
      assert run + [] == run && s.procs[d := p] == s.procs;
    } else {
      var init := pcs[..|pcs| - 1];
      assert Leads(p, init);
      FollowPath(run, d, init);
      var more := run + Repeat(Advance(d, Proceed), |init| - 1);
      OneMore(more, Advance(d, Proceed));
      assert run + Repeat(Advance(d, Proceed), |pcs| - 1) == more + [Advance(d, Proceed)];
      var t := After(TWO, JOBS, more);
      assert t.procs[d] == p.(pc := pcs[|init| - 1]) && Untouched(t);
      assert NextMove(TWO, t, t.procs[d], Proceed) == GoTo(pcs[|init|]);
    }
  }

  function PathTo(d: nat): seq<Pc> {
    [Settle(0, AtEntry), Settle(1, AtEntry), Settle(2, AtEntry),
     Reconcile(0, ToScan(0)), Reconcile(1, ToScan(0)), Reconcile(2, ToScan(0)), Scan(0)]
    + (if d == 0 then [] else [Scan(1)])
    + [Settle(0, Before(d)), Settle(1, Before(d)), Settle(2, Before(d)), Check(d), Claim(d)]
  }

  lemma {:induction false} JobsAreThere(d: nat)
    requires d < 2
    ensures !TWO[d].gap && TWO[d].jobFile in JOBS && JOBS[TWO[d].jobFile] == TWO[d].jobHash
  {
    assert "a" + ".job" == "a.job" && "b" + ".job" == "b.job";
  }

  lemma {:induction false} PathStep(d: nat, i: nat, s: State)
    requires d < 2 && i < |PathTo(d)| - 1 && Untouched(s)
    ensures NextMove(TWO, s, Process(Running(1, {d}), PathTo(d)[i], 0), Proceed) == GoTo(PathTo(d)[i + 1])
  {
    JobsAreThere(d);
    JobsAreThere(0);
    hide Plain;
    assert |TWO| == 2;
    if d == 0 {
      assert PathTo(d) == [Settle(0, AtEntry), Settle(1, AtEntry), Settle(2, AtEntry),
                           Reconcile(0, ToScan(0)), Reconcile(1, ToScan(0)), Reconcile(2, ToScan(0)), Scan(0),
                           Settle(0, Before(0)), Settle(1, Before(0)), Settle(2, Before(0)), Check(0), Claim(0)];
    } else {
      assert PathTo(d) == [Settle(0, AtEntry), Settle(1, AtEntry), Settle(2, AtEntry),
                           Reconcile(0, ToScan(0)), Reconcile(1, ToScan(0)), Reconcile(2, ToScan(0)), Scan(0), Scan(1),
                           Settle(0, Before(1)), Settle(1, Before(1)), Settle(2, Before(1)), Check(1), Claim(1)];
    }
  }

  lemma {:induction false} PathLeads(d: nat)
    requires d < 2
    ensures Leads(Process(Running(1, {d}), Settle(0, AtEntry), 0), PathTo(d))
  {
    hide NextMove, PathTo, Untouched;
    forall i, s | 0 <= i < |PathTo(d)| - 1 && Untouched(s)
      ensures NextMove(TWO, s, Process(Running(1, {d}), PathTo(d)[i], 0), Proceed) == GoTo(PathTo(d)[i + 1])
    {
      PathStep(d, i, s);
    }
  }

  function Starting(d: nat): Process {
    Process(Running(1, {d}), Settle(0, AtEntry), 0)
  }

  lemma {:induction false} TwoValid()
    ensures ValidPairs(TWO)
  {
  }

  lemma {:induction false} Starts(s: State, d: nat)
    requires d < 2 && d !in s.procs
    ensures Perform(TWO, s, StartRun(d, 1, {d})) == s.(procs := s.procs[d := Starting(d)])
  {
    TwoValid();
    hide ValidPairs, Plain;
    assert |TWO| == 2;
  }

  lemma {:induction false} BothStart()
    ensures var s := After(TWO, JOBS, BOTH);
            Untouched(s) && s.procs == map[0 := Starting(0), 1 := Starting(1)]
  {
    var first := [StartRun(0, 1, {0})];
    assert [] + [StartRun(0, 1, {0})] == first && first + [StartRun(1, 1, {1})] == BOTH;
    hide Perform, Plain;
    OneMore([], StartRun(0, 1, {0}));
    OneMore(first, StartRun(1, 1, {1}));
    Starts(After(TWO, JOBS, []), 0);
    Starts(After(TWO, JOBS, first), 1);
  }

  lemma {:induction false} PathEnds(d: nat)
    requires d < 2
    ensures |PathTo(d)| == 12 + d && PathTo(d)[0] == Settle(0, AtEntry) && PathTo(d)[11 + d] == Claim(d)
  {
  }

  ghost predicate BothClaim(s: State) {
    Untouched(s) && s.procs == map[0 := Starting(0).(pc := Claim(0)), 1 := Starting(1).(pc := Claim(1))]
  }

  // Where both runs stand when the first claims.
  lemma {:induction false} BothReachClaim()
    ensures BothClaim(After(TWO, JOBS, BOTH + Repeat(Advance(0, Proceed), 11) + Repeat(Advance(1, Proceed), 12)))
  {
    hide NextMove, Perform, After, Leads, Repeat, PathTo;
    BothStart();
    PathLeads(0);
    PathLeads(1);
    PathEnds(0);
    PathEnds(1);
    FollowPath(BOTH, 0, PathTo(0));
    FollowPath(BOTH + Repeat(Advance(0, Proceed), 11), 1, PathTo(1));
  }

  lemma {:induction false} ClaimsLeaveTwoOpen(s: State)
    requires BothClaim(s)
    ensures !OneOpen(TWO, Perform(TWO, Perform(TWO, s, Advance(0, Proceed)), Advance(1, Proceed)))
  {
    var x, y := TWO[0].receiptFile, TWO[1].receiptFile;
    assert "a.receipt"[0] != "b.receipt"[0] && x[0] != y[0];
    hide Plain;
    var t := Perform(TWO, s, Advance(0, Proceed));
    assert t == Commit(s, 0, Process(Running(1, {0}), Write(0), 1), Create(x, 0));
    var u := Perform(TWO, t, Advance(1, Proceed));
    assert u == Commit(t, 1, Process(Running(1, {1}), Write(1), 1), Create(y, 1));
    assert Open(TWO[0], u) && Open(TWO[1], u);
  }

  // Two runs that overlap: both pass the settlement check before either claims, and two admissions
  // stay unsettled, although no report is rewritten.
  lemma {:induction false} OverlapLeavesTwoOpen()
    ensures KeepsProofs(TWO, JOBS, Overlap()) && !OneOpen(TWO, After(TWO, JOBS, Overlap()))
  {
    OnlyDriversMove();
    BothReachClaim();
    hide Perform, After, BothClaim, Repeat, OneOpen;
    var run := BOTH + Repeat(Advance(0, Proceed), 11) + Repeat(Advance(1, Proceed), 12);
    OneMore(run, Advance(0, Proceed));
    OneMore(run + [Advance(0, Proceed)], Advance(1, Proceed));
    ClaimsLeaveTwoOpen(After(TWO, JOBS, run));
  }

  lemma {:induction false} OnlyDriversMove()
    ensures forall i :: 0 <= i < |Overlap()| ==> !Overlap()[i].AdapterReports?
  {
    RepeatIs(Advance(0, Proceed), 11);
    RepeatIs(Advance(1, Proceed), 12);
    hide Repeat;
  }

  lemma {:induction false} RepeatIs(step: Step, n: nat)
    ensures |Repeat(step, n)| == n && forall i :: 0 <= i < n ==> Repeat(step, n)[i] == step
  {
    if n > 0 {
      RepeatIs(step, n - 1);
    }
  }
}
