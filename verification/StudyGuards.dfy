// What stands before each claim of the study protocol, why drivers fail, and what the files of a
// study hold. Terminal proof, job pins and receipt contents are written out here on their own.
module StudyGuards {
  import opened StudyProtocol
  import StudyAdmissions
  import StudyProgress
  import opened Wrappers

  // ----- Settled admissions, written out -----

  predicate Ended(outcome: string) {
    outcome == "succeeded" || outcome == "failed" || outcome == "cancelled"
  }

  // A normal report shows a completed, bounded turn; a context report shows both arms of its pair.
  predicate Terminal(r: Report, t: Trial) {
    || (&& t.adapter == Normal
        && Ended(r.outcome) && r.status != "timed_out" && r.status != "public_operation_failed"
        && r.turn && r.historyComplete)
    || (&& t.adapter == Context && Bound(t) && Paired(r)
        && r.arms[0].verified && r.arms[1].verified && Ended(r.arms[0].outcome) && Ended(r.arms[1].outcome))
  }

  predicate Bound(t: Trial) {
    t.pairId.Some? && t.pairId.value != "" && t.reportArm == Some(t.arm)
  }

  predicate Paired(r: Report) {
    |r.arms| == 2
    && ((r.arms[0].arm == "off" && r.arms[1].arm == "on") || (r.arms[0].arm == "on" && r.arms[1].arm == "off"))
  }

  function OwnReceipt(t: Trial): Receipt {
    Receipt(match t.pairId case Some(pair) => pair case None => t.id, t.jobHash)
  }

  predicate Pinned(t: Trial, s: State) {
    t.jobFile in s.jobs && s.jobs[t.jobFile] == t.jobHash
  }

  // The trial was never admitted, or its receipt is its own, its job unchanged, and its report
  // proves that the admission has ended.
  predicate Clear(t: Trial, s: State) {
    t.receiptFile in s.receipts ==>
      && s.receipts[t.receiptFile] == Some(OwnReceipt(t))
      && Pinned(t, s) && t.reportFile in s.reports && Terminal(s.reports[t.reportFile], t)
  }

  lemma {:induction false} ProvesIsTerminal(r: Report, t: Trial)
    ensures Proves(r, t) <==> Terminal(r, t)
    ensures ArmBound(t) && BothArms(r) <==> Bound(t) && Paired(r)
  {
    if |r.arms| == 2 {
      var x, y := r.arms[0].arm, r.arms[1].arm;
      assert x in {x, y} && y in {x, y} && "off" in {"off", "on"} && "on" in {"off", "on"};
      assert "off" != "on";
    }
  }

  lemma {:induction false} SettledIsClear(t: Trial, s: State)
    ensures t.receiptFile !in s.receipts || Settled(t, s) <==> Clear(t, s)
  {
    if t.reportFile in s.reports {
      ProvesIsTerminal(s.reports[t.reportFile], t);
    }
    hide Proves, Terminal;
  }

  // ----- What a driver has looked at -----

  // Driver d stood at pc before step m, when the log was no longer than q.
  ghost predicate Stood(trials: seq<Trial>, jobs: map<string, string>, run: seq<Step>, d: nat, pc: Pc, q: nat, m: nat) {
    m < |run|
    && var s := After(trials, jobs, run[..m]); d in s.procs && s.procs[d].pc == pc && |s.log| <= q
  }

  // While the log was no longer than q, driver d found trial j clear.
  ghost predicate Passed(trials: seq<Trial>, jobs: map<string, string>, run: seq<Step>, d: nat, after: AfterSettle, j: nat, q: nat) {
    j < |trials|
    && exists m: nat :: Stood(trials, jobs, run, d, Settle(j, after), q, m) && Clear(trials[j], After(trials, jobs, run[..m]))
  }

  ghost predicate PassedAll(trials: seq<Trial>, jobs: map<string, string>, run: seq<Step>, d: nat, after: AfterSettle, upto: nat, q: nat) {
    forall j: nat :: j < upto && j < |trials| ==> Passed(trials, jobs, run, d, after, j, q)
  }

  // While the log was no longer than q, driver d found no receipt for trial i, and its job unchanged.
  ghost predicate Vacant(trials: seq<Trial>, jobs: map<string, string>, run: seq<Step>, d: nat, i: nat, q: nat) {
    i < |trials|
    && exists m: nat :: Stood(trials, jobs, run, d, Check(i), q, m)
                        && var s := After(trials, jobs, run[..m]); trials[i].receiptFile !in s.receipts && Pinned(trials[i], s)
  }

  // While the log was no longer than q, driver d came to trial i, which had no result.
  ghost predicate Due(trials: seq<Trial>, jobs: map<string, string>, run: seq<Step>, d: nat, i: nat, q: nat) {
    i < |trials|
    && exists m: nat :: Stood(trials, jobs, run, d, Scan(i), q, m)
                        && trials[i].resultFile !in After(trials, jobs, run[..m]).results
  }

  // What driver d has seen to, standing where it stands.
  ghost predicate Heeded(trials: seq<Trial>, jobs: map<string, string>, run: seq<Step>, d: nat, p: Process, q: nat) {
    && (p.mode.Reconciling? ==> (p.pc.Reconcile? && p.pc.next.ToFinish?) || p.pc.Finished? || p.pc.Failed?)
    && (!p.mode.Reconciling? && !p.pc.Failed? ==>
          PassedAll(trials, jobs, run, d, AtEntry,
                    if p.pc.Settle? && p.pc.after.AtEntry? then p.pc.upto else |trials|, q))
    && (match p.pc
        case Settle(upto, after) =>
          PassedAll(trials, jobs, run, d, after, upto, q) && (after.Before? ==> Due(trials, jobs, run, d, after.trial, q))
        case Check(i) => PassedAll(trials, jobs, run, d, Before(i), |trials|, q) && Due(trials, jobs, run, d, i, q)
        case Claim(i) => ClaimHeeded(trials, jobs, run, d, i, q)
        case _ => true)
  }

  ghost predicate ClaimHeeded(trials: seq<Trial>, jobs: map<string, string>, run: seq<Step>, d: nat, i: nat, q: nat) {
    && PassedAll(trials, jobs, run, d, AtEntry, |trials|, q)
    && PassedAll(trials, jobs, run, d, Before(i), |trials|, q)
    && Due(trials, jobs, run, d, i, q)
    && Vacant(trials, jobs, run, d, i, q)
  }

  ghost predicate AllHeeded(trials: seq<Trial>, jobs: map<string, string>, run: seq<Step>, d: nat) {
    var s := After(trials, jobs, run);
    && (d in s.procs ==> Heeded(trials, jobs, run, d, s.procs[d], |s.log|))
    && (forall q: nat :: q < |s.log| && s.log[q].Claimed? && s.log[q].driver == d ==>
          ClaimHeeded(trials, jobs, run, d, s.log[q].trial, q))
  }

  // What was seen stays seen.
  lemma {:induction false} StoodLater(trials: seq<Trial>, jobs: map<string, string>, run: seq<Step>, d: nat, pc: Pc, q: nat, q': nat, m: nat)
    requires run != [] && q <= q' && Stood(trials, jobs, run[..|run| - 1], d, pc, q, m)
    ensures Stood(trials, jobs, run, d, pc, q', m) && run[..|run| - 1][..m] == run[..m]
  {
    assert run[..|run| - 1][..m] == run[..m];
  }

  lemma {:induction false} PassedLater(trials: seq<Trial>, jobs: map<string, string>, run: seq<Step>, d: nat, after: AfterSettle, upto: nat, q: nat, q': nat)
    requires run != [] && q <= q' && PassedAll(trials, jobs, run[..|run| - 1], d, after, upto, q)
    ensures PassedAll(trials, jobs, run, d, after, upto, q')
  {
    hide Clear, After;
    var before := run[..|run| - 1];
    forall j: nat | j < upto && j < |trials| ensures Passed(trials, jobs, run, d, after, j, q') {
      assert Passed(trials, jobs, before, d, after, j, q);
      var m: nat :| Stood(trials, jobs, before, d, Settle(j, after), q, m) && Clear(trials[j], After(trials, jobs, before[..m]));
      StoodLater(trials, jobs, run, d, Settle(j, after), q, q', m);
    }
  }

  lemma {:induction false} VacantLater(trials: seq<Trial>, jobs: map<string, string>, run: seq<Step>, d: nat, i: nat, q: nat, q': nat)
    requires run != [] && q <= q' && Vacant(trials, jobs, run[..|run| - 1], d, i, q)
    ensures Vacant(trials, jobs, run, d, i, q')
  {
    hide Pinned, After;
    var before := run[..|run| - 1];
    var m: nat :| Stood(trials, jobs, before, d, Check(i), q, m)
                  && var s := After(trials, jobs, before[..m]); trials[i].receiptFile !in s.receipts && Pinned(trials[i], s);
    StoodLater(trials, jobs, run, d, Check(i), q, q', m);
  }

  lemma {:induction false} DueLater(trials: seq<Trial>, jobs: map<string, string>, run: seq<Step>, d: nat, i: nat, q: nat, q': nat)
    requires run != [] && q <= q' && Due(trials, jobs, run[..|run| - 1], d, i, q)
    ensures Due(trials, jobs, run, d, i, q')
  {
    hide After;
    var before := run[..|run| - 1];
    var m: nat :| Stood(trials, jobs, before, d, Scan(i), q, m)
                  && trials[i].resultFile !in After(trials, jobs, before[..m]).results;
    StoodLater(trials, jobs, run, d, Scan(i), q, q', m);
  }

  lemma {:induction false} ClaimHeededLater(trials: seq<Trial>, jobs: map<string, string>, run: seq<Step>, d: nat, i: nat, q: nat, q': nat)
    requires run != [] && q <= q' && ClaimHeeded(trials, jobs, run[..|run| - 1], d, i, q)
    ensures ClaimHeeded(trials, jobs, run, d, i, q')
  {
    hide PassedAll, Vacant, Due;
    PassedLater(trials, jobs, run, d, AtEntry, |trials|, q, q');
    PassedLater(trials, jobs, run, d, Before(i), |trials|, q, q');
    DueLater(trials, jobs, run, d, i, q, q');
    VacantLater(trials, jobs, run, d, i, q, q');
  }

  lemma {:induction false} HeededLater(trials: seq<Trial>, jobs: map<string, string>, run: seq<Step>, d: nat, p: Process, q: nat, q': nat)
    requires run != [] && q <= q' && Heeded(trials, jobs, run[..|run| - 1], d, p, q)
    ensures Heeded(trials, jobs, run, d, p, q')
  {
    hide PassedAll, Vacant, Due, ClaimHeeded;
    if !p.mode.Reconciling? && !p.pc.Failed? {
      PassedLater(trials, jobs, run, d, AtEntry, if p.pc.Settle? && p.pc.after.AtEntry? then p.pc.upto else |trials|, q, q');
    }
    match p.pc
    case Settle(upto, after) =>
      PassedLater(trials, jobs, run, d, after, upto, q, q');
      if after.Before? {
        DueLater(trials, jobs, run, d, after.trial, q, q');
      }
    case Check(i) =>
      PassedLater(trials, jobs, run, d, Before(i), |trials|, q, q');
      DueLater(trials, jobs, run, d, i, q, q');
    case Claim(i) => ClaimHeededLater(trials, jobs, run, d, i, q, q');
    case _ =>
  }

  // How a move of a driver leads from one place to the next.
  ghost predicate Leads(trials: seq<Trial>, s: State, p: Process, p': Process) {
    && p'.mode == p.mode
    && (p.pc.Failed? ==> p'.pc.Failed?)
    && ((p.pc.Reconcile? && p.pc.next.ToFinish?) || p.pc.Finished? ==>
          (p'.pc.Reconcile? && p'.pc.next.ToFinish?) || p'.pc.Finished? || p'.pc.Failed?)
    && match p'.pc
       case Settle(upto, after) =>
         (1 <= upto <= |trials| && p.pc == Settle(upto - 1, after) && Clear(trials[upto - 1], s))
         || (p.pc.Scan? && upto == 0 && after == Before(p.pc.trial)
             && p.pc.trial < |trials| && trials[p.pc.trial].resultFile !in s.results)
       case Check(i) => p.pc.Settle? && p.pc.after == Before(i) && p.pc.upto >= |trials|
       case Claim(i) => p.pc == Check(i) && i < |trials| && trials[i].receiptFile !in s.receipts && Pinned(trials[i], s)
       case Reconcile(_, _) =>
         p.pc.Reconcile? || p.pc.Wait? || (p.pc.Settle? && p.pc.after.AtEntry? && p.pc.upto >= |trials|)
       case _ => !p.pc.Settle? || p'.pc.Failed?
  }

  lemma {:induction false} MoveHeeds(trials: seq<Trial>, s: State, p: Process, c: Choice)
    ensures var m := NextMove(trials, s, p, c);
            Leads(trials, s, p, Moved(p, m)) && (m.Create? ==> p.pc == Claim(m.trial))
  {
    if p.pc.Settle? && p.pc.upto < |trials| {
      SettledIsClear(trials[p.pc.upto], s);
    }
    hide Settled, Clear;
  }

  // What driver d sees at step m is seen.
  lemma {:induction false} NowSeen(trials: seq<Trial>, jobs: map<string, string>, run: seq<Step>, d: nat, p: Process, p': Process, q: nat, m: nat)
    requires Stood(trials, jobs, run, d, p.pc, q, m) && Leads(trials, After(trials, jobs, run[..m]), p, p')
    ensures match p'.pc
            case Settle(upto, after) =>
              if upto == 0 then after.Before? && Due(trials, jobs, run, d, after.trial, q)
              else PassedAll(trials, jobs, run, d, after, upto - 1, q) ==> PassedAll(trials, jobs, run, d, after, upto, q)
            case Claim(i) => Vacant(trials, jobs, run, d, i, q)
            case _ => true
  {
    hide Clear, Pinned, After, Stood;
    if p'.pc.Settle? && p'.pc.upto > 0 {
      assert Passed(trials, jobs, run, d, p'.pc.after, p'.pc.upto - 1, q);
      hide Passed;
    }
  }

  // A driver's own step keeps what it has seen to.
  lemma {:induction false} DriveHeeds(trials: seq<Trial>, jobs: map<string, string>, run: seq<Step>, d: nat, c: Choice)
    requires run != [] && run[|run| - 1] == Advance(d, c)
    requires var s := After(trials, jobs, run[..|run| - 1]);
             d in s.procs && Heeded(trials, jobs, run[..|run| - 1], d, s.procs[d], |s.log|)
    ensures var s := After(trials, jobs, run[..|run| - 1]);
            var m := NextMove(trials, s, s.procs[d], c);
            && Heeded(trials, jobs, run, d, Moved(s.procs[d], m), |s.log|)
            && (m.Create? ==> ClaimHeeded(trials, jobs, run, d, m.trial, |s.log|))
  {
    var before := run[..|run| - 1];
    var s := After(trials, jobs, before);
    var p, q, k := s.procs[d], |s.log|, |run| - 1;
    var p' := Moved(p, NextMove(trials, s, p, c));
    HeededLater(trials, jobs, run, d, p, q, q);
    MoveHeeds(trials, s, p, c);
    assert Stood(trials, jobs, run, d, p.pc, q, k);
    NowSeen(trials, jobs, run, d, p, p', q, k);
    hide NextMove, Moved, Stood, After;
    LeadsHeeded(trials, jobs, run, d, s, p, p', q);
  }

  lemma {:induction false} LeadsHeeded(trials: seq<Trial>, jobs: map<string, string>, run: seq<Step>, d: nat, s: State, p: Process, p': Process, q: nat)
    requires Heeded(trials, jobs, run, d, p, q) && Leads(trials, s, p, p')
    requires match p'.pc
             case Settle(upto, after) =>
               if upto == 0 then after.Before? && Due(trials, jobs, run, d, after.trial, q)
               else PassedAll(trials, jobs, run, d, after, upto - 1, q) ==> PassedAll(trials, jobs, run, d, after, upto, q)
             case Claim(i) => Vacant(trials, jobs, run, d, i, q)
             case _ => true
    ensures Heeded(trials, jobs, run, d, p', q)
  {
    AllPassed(trials, jobs, run, d, AtEntry, q);
    AllPassed(trials, jobs, run, d, if p.pc.Settle? then p.pc.after else AtEntry, q);
    NothingAhead(trials, jobs, run, d, if p'.pc.Settle? then p'.pc.after else AtEntry, q);
    hide PassedAll, Due, Vacant, Clear, Pinned;
  }

  lemma {:induction false} AllPassed(trials: seq<Trial>, jobs: map<string, string>, run: seq<Step>, d: nat, after: AfterSettle, q: nat)
    ensures forall upto: nat :: upto >= |trials| && PassedAll(trials, jobs, run, d, after, upto, q) ==>
              PassedAll(trials, jobs, run, d, after, |trials|, q)
  {
    hide Passed;
  }

  // Steps other than a driver's own leave it where it is, start it at the beginning, or fail it.
  lemma {:induction false} OtherStepHeeds(trials: seq<Trial>, jobs: map<string, string>, run: seq<Step>, d: nat)
    requires run != [] && AllHeeded(trials, jobs, run[..|run| - 1], d)
    requires var s := After(trials, jobs, run[..|run| - 1]);
             !(run[|run| - 1].Advance? && run[|run| - 1].driver == d && d in s.procs)
    ensures var s := After(trials, jobs, run);
            d in s.procs ==> Heeded(trials, jobs, run, d, s.procs[d], |s.log|)
  {
    var before, step := run[..|run| - 1], run[|run| - 1];
    var s, s' := After(trials, jobs, before), After(trials, jobs, run);
    StudyProgress.StepGrows(trials, s, step);
    if !StudyProgress.By(step, d) {
      StudyProgress.Bystander(trials, s, step, d);
    }
    hide NextMove, ValidPairs, After, PassedAll, Vacant, Due;
    if d in s.procs {
      HeededLater(trials, jobs, run, d, s.procs[d], |s.log|, |s'.log|);
    } else {
      NothingAhead(trials, jobs, run, d, AtEntry, |s'.log|);
    }
  }

  lemma {:induction false} NothingAhead(trials: seq<Trial>, jobs: map<string, string>, run: seq<Step>, d: nat, after: AfterSettle, q: nat)
    ensures PassedAll(trials, jobs, run, d, after, 0, q)
  {
  }

  // What a driver's own step adds to the log.
  lemma {:induction false} DriveLogs(trials: seq<Trial>, s: State, d: nat, c: Choice)
    requires d in s.procs
    ensures var s', m := Drive(trials, s, d, c), NextMove(trials, s, s.procs[d], c);
            && |s.log| <= |s'.log| && d in s'.procs && s'.procs[d] == Moved(s.procs[d], m)
            && forall q :: |s.log| <= q < |s'.log| && s'.log[q].Claimed? ==> m.Create? && s'.log[q].trial == m.trial && q == |s.log|
  {
    hide NextMove;
  }

  lemma {:induction false} OwnStepHeeds(trials: seq<Trial>, jobs: map<string, string>, run: seq<Step>, d: nat)
    requires run != []
    requires var s := After(trials, jobs, run[..|run| - 1]);
             d in s.procs && Heeded(trials, jobs, run[..|run| - 1], d, s.procs[d], |s.log|)
    requires run[|run| - 1].Advance? && run[|run| - 1].driver == d
    ensures var s, s' := After(trials, jobs, run[..|run| - 1]), After(trials, jobs, run);
            && d in s'.procs && Heeded(trials, jobs, run, d, s'.procs[d], |s'.log|)
            && forall q: nat :: |s.log| <= q < |s'.log| && s'.log[q].Claimed? && s'.log[q].driver == d ==>
                 ClaimHeeded(trials, jobs, run, d, s'.log[q].trial, q)
  {
    var s, c := After(trials, jobs, run[..|run| - 1]), run[|run| - 1].choice;
    assert After(trials, jobs, run) == Drive(trials, s, d, c);
    hide NextMove, Moved, Heeded, ClaimHeeded, After, Drive;
    DriveHeeds(trials, jobs, run, d, c);
    DriveLogs(trials, s, d, c);
    var s' := Drive(trials, s, d, c);
    HeededGrows(trials, jobs, run, d, s'.procs[d], |s.log|, |s'.log|);
  }

  lemma {:induction false} RunHeeds(trials: seq<Trial>, jobs: map<string, string>, run: seq<Step>, d: nat)
    ensures AllHeeded(trials, jobs, run, d)
  {
    if run != [] {
      var before, step := run[..|run| - 1], run[|run| - 1];
      RunHeeds(trials, jobs, before, d);
      var s, s' := After(trials, jobs, before), After(trials, jobs, run);
      assert s' == Perform(trials, s, step);
      hide Heeded, ClaimHeeded, After, Perform;
      StudyProgress.StepGrows(trials, s, step);
      if step.Advance? && step.driver == d && d in s.procs {
        OwnStepHeeds(trials, jobs, run, d);
      } else {
        OtherStepHeeds(trials, jobs, run, d);
        OtherStepLogs(trials, s, step, d);
      }
      OldClaimsHeeded(trials, jobs, run, d, s.log);
      assert forall q :: 0 <= q < |s.log| ==> s'.log[q] == s.log[q];
    }
  }

  lemma {:induction false} OldClaimsHeeded(trials: seq<Trial>, jobs: map<string, string>, run: seq<Step>, d: nat, log: seq<Event>)
    requires run != []
    requires forall q: nat :: q < |log| && log[q].Claimed? && log[q].driver == d ==>
               ClaimHeeded(trials, jobs, run[..|run| - 1], d, log[q].trial, q)
    ensures forall q: nat :: q < |log| && log[q].Claimed? && log[q].driver == d ==>
              ClaimHeeded(trials, jobs, run, d, log[q].trial, q)
  {
    hide ClaimHeeded;
    forall q: nat | q < |log| && log[q].Claimed? && log[q].driver == d
      ensures ClaimHeeded(trials, jobs, run, d, log[q].trial, q)
    {
      ClaimHeededLater(trials, jobs, run, d, log[q].trial, q, q);
    }
  }

  lemma {:induction false} OtherStepLogs(trials: seq<Trial>, s: State, step: Step, d: nat)
    requires !(step.Advance? && step.driver == d && d in s.procs)
    ensures var s' := Perform(trials, s, step); forall q :: |s.log| <= q < |s'.log| ==> s'.log[q].driver != d
  {
    if !StudyProgress.By(step, d) {
      StudyProgress.Bystander(trials, s, step, d);
    }
    hide NextMove, ValidPairs;
  }

  lemma {:induction false} HeededGrows(trials: seq<Trial>, jobs: map<string, string>, run: seq<Step>, d: nat, p: Process, q: nat, q': nat)
    requires q <= q' && Heeded(trials, jobs, run, d, p, q)
    ensures Heeded(trials, jobs, run, d, p, q')
  {
    hide Clear, After, Pinned;
    assert forall pc, m: nat :: Stood(trials, jobs, run, d, pc, q, m) ==> Stood(trials, jobs, run, d, pc, q', m);
    assert forall after, j: nat :: Passed(trials, jobs, run, d, after, j, q) ==> Passed(trials, jobs, run, d, after, j, q');
    assert forall i: nat :: Due(trials, jobs, run, d, i, q) ==> Due(trials, jobs, run, d, i, q');
    assert forall i: nat :: Vacant(trials, jobs, run, d, i, q) ==> Vacant(trials, jobs, run, d, i, q');
    hide Passed, Due, Vacant;
    assert forall after, upto: nat :: PassedAll(trials, jobs, run, d, after, upto, q) ==> PassedAll(trials, jobs, run, d, after, upto, q');
  }

  // Before each claim its driver has looked at every trial of the schedule, once when it started
  // and once for this claim, and found each without a receipt or with its admission ended; and it
  // has found the trial it claims without a result, without a receipt and with its job unchanged.
  lemma {:induction false} ClaimIsGuarded(trials: seq<Trial>, jobs: map<string, string>, run: seq<Step>, q: nat)
    requires q < |After(trials, jobs, run).log| && After(trials, jobs, run).log[q].Claimed?
    ensures var e := After(trials, jobs, run).log[q];
            && (forall j: nat :: j < |trials| ==>
                  Passed(trials, jobs, run, e.driver, AtEntry, j, q) && Passed(trials, jobs, run, e.driver, Before(e.trial), j, q))
            && Due(trials, jobs, run, e.driver, e.trial, q) && Vacant(trials, jobs, run, e.driver, e.trial, q)
  {
    RunHeeds(trials, jobs, run, After(trials, jobs, run).log[q].driver);
    hide After, Passed, Due, Vacant;
  }

  // A run or a rebind that is done has looked at every trial when it started.
  lemma {:induction false} FinishedLooked(trials: seq<Trial>, jobs: map<string, string>, run: seq<Step>, d: nat, j: nat)
    requires j < |trials| && d in After(trials, jobs, run).procs
    requires var p := After(trials, jobs, run).procs[d]; p.pc.Finished? && !p.mode.Reconciling?
    ensures Passed(trials, jobs, run, d, AtEntry, j, |After(trials, jobs, run).log|)
  {
    RunHeeds(trials, jobs, run, d);
  }
}
