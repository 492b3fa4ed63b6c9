// What the files of a study hold after any run, how many trials a run claims, and why a driver fails.
module StudyRecords {
  import opened StudyProtocol
  import opened StudyGuards
  import StudyAdmissions
  import StudyProgress
  import opened Wrappers

  // ----- Limits -----

  ghost function Claims(log: seq<Event>, d: nat): set<nat> {
    set q: nat | q < |log| && log[q].Claimed? && log[q].driver == d
  }

  lemma {:induction false} ClaimsByIsCount(log: seq<Event>, d: nat)
    ensures StudyAdmissions.ClaimsBy(log, d) == |Claims(log, d)|
  {
    if log == [] {
      assert Claims(log, d) == {};
    } else {
      var n := |log| - 1;
      ClaimsByIsCount(log[..n], d);
      if log[n].Claimed? && log[n].driver == d {
        assert Claims(log, d) == Claims(log[..n], d) + {n};
      } else {
        assert Claims(log, d) == Claims(log[..n], d);
      }
    }
  }

  ghost predicate Started(trials: seq<Trial>, run: seq<Step>, d: nat, limit: nat, wanted: set<nat>) {
    StartRun(d, limit, wanted) in run && 0 < limit <= |trials|
  }

  lemma {:induction false} RunIsStarted(trials: seq<Trial>, jobs: map<string, string>, run: seq<Step>, d: nat)
    ensures var procs := After(trials, jobs, run).procs;
            d in procs && procs[d].mode.Running? ==> Started(trials, run, d, procs[d].mode.limit, procs[d].mode.wanted)
  {
    if run != [] {
      var before, step := run[..|run| - 1], run[|run| - 1];
      RunIsStarted(trials, jobs, before, d);
      var s := After(trials, jobs, before);
      assert forall x :: x in before ==> x in run;
      if !StudyProgress.By(step, d) {
        StudyProgress.Bystander(trials, s, step, d);
      } else if step.Advance? && d in s.procs {
        StudyAdmissions.EndedStaysEnded(trials, s, s.procs[d], step.choice);
        StudyAdmissions.DriveEffect(trials, s, d, step.choice);
      }
      hide NextMove, ValidPairs;
    }
  }

  // A run claims at most as many trials as it was started with for its limit, only trials it was
  // started for, and none with a gap.
  lemma {:induction false} RunStaysWithin(trials: seq<Trial>, jobs: map<string, string>, run: seq<Step>, d: nat, q: nat)
    requires var log := After(trials, jobs, run).log; q < |log| && log[q].Claimed? && log[q].driver == d
    ensures var s := After(trials, jobs, run);
            && d in s.procs && s.procs[d].mode.Running? && ValidPairs(trials)
            && var limit, wanted := s.procs[d].mode.limit, s.procs[d].mode.wanted;
            && Started(trials, run, d, limit, wanted)
            && |Claims(s.log, d)| == s.procs[d].admitted <= limit
            && s.log[q].trial in wanted && s.log[q].trial < |trials| && !trials[s.log[q].trial].gap
  {
    StudyAdmissions.EveryRunIsLimited(trials, jobs, run);
    var s := After(trials, jobs, run);
    assert StudyAdmissions.ClaimSelected(trials, s, s.log[q]) && StudyAdmissions.CountedFor(trials, s, d);
    ClaimsByIsCount(s.log, d);
    RunIsStarted(trials, jobs, run, d);
  }

  // ----- Receipts -----

  ghost predicate ReceiptKept(trials: seq<Trial>, s: State, file: string) {
    file in s.receipts && s.receipts[file].Some? ==>
      exists d: nat, i: nat :: i < |trials| && Claimed(d, i) in s.log
                               && trials[i].receiptFile == file && s.receipts[file] == Some(OwnReceipt(trials[i]))
  }

  ghost predicate Filled(trials: seq<Trial>, s: State, i: nat) {
    i < |trials| && trials[i].receiptFile in s.receipts && s.receipts[trials[i].receiptFile] == Some(OwnReceipt(trials[i]))
  }

  // A written receipt is that of a claimed trial, and a trial is dispatched only by an adapter
  // there is, once its own receipt is written; from then on the receipt stays.
  ghost predicate Recorded(trials: seq<Trial>, s: State) {
    && (forall file :: ReceiptKept(trials, s, file))
    && (forall q: nat :: q < |s.log| && s.log[q].Dispatched? ==>
          Filled(trials, s, s.log[q].trial) && trials[s.log[q].trial].adapter != Missing)
    && (forall d: nat :: d in s.procs && s.procs[d].pc.Dispatch? ==> Filled(trials, s, s.procs[d].pc.trial))
    && (forall d: nat :: d in s.procs && s.procs[d].pc.Wait? ==> Dispatched(d, s.procs[d].pc.trial) in s.log)
  }

  lemma {:induction false} MoveRecords(trials: seq<Trial>, s: State, p: Process, c: Choice)
    ensures var m := NextMove(trials, s, p, c);
            && (m.Fill? ==> m.trial < |trials| && m.receipt == OwnReceipt(trials[m.trial]))
            && (m.Launch? ==> m.trial < |trials| && trials[m.trial].adapter != Missing)
            && (Moved(p, m).pc.Dispatch? ==> m.Fill? && m.trial == Moved(p, m).pc.trial)
            && (Moved(p, m).pc.Wait? ==> m.Launch? && m.trial == Moved(p, m).pc.trial)
  {
  }

  // Nobody else fills in a receipt once a trial under it stands to be dispatched, or has been.
  lemma {:induction false} FillIsAlone(trials: seq<Trial>, s: State, d: nat, i: nat, j: nat)
    requires Safe(trials, s) && Recorded(trials, s) && d in s.procs && s.procs[d].pc == Write(i)
    requires (exists e: nat :: e in s.procs && s.procs[e].pc == Dispatch(j)) || (exists e: nat :: Dispatched(e, j) in s.log)
    ensures i < |trials| && j < |trials| && trials[j].receiptFile != trials[i].receiptFile
  {
    assert Holds(trials, s, d, i);
    var c :| 0 <= c < |s.log| && s.log[c] == Claimed(d, i);
    if e: nat :| e in s.procs && s.procs[e].pc == Dispatch(j) {
      assert Holds(trials, s, e, j);
      var b :| 0 <= b < |s.log| && s.log[b] == Claimed(e, j);
      assert ClaimAt(trials, s.log, c, trials[i].receiptFile) && ClaimAt(trials, s.log, b, trials[j].receiptFile);
    } else {
      var e: nat :| Dispatched(e, j) in s.log;
      var q :| 0 <= q < |s.log| && s.log[q] == Dispatched(e, j);
      assert Filled(trials, s, s.log[q].trial);
      assert !DispatchAt(trials, s.log, q, trials[i].receiptFile);
    }
  }

  lemma {:induction false} FillKeeps(trials: seq<Trial>, s: State, d: nat, p: Process, i: nat)
    requires (forall f :: ReceiptKept(trials, s, f)) && i < |trials| && Claimed(d, i) in s.log
    ensures var file := trials[i].receiptFile;
            var s' := Commit(s, d, p, Fill(file, OwnReceipt(trials[i]), i));
            && Filled(trials, s', i)
            && (forall j: nat :: Filled(trials, s, j) && trials[j].receiptFile != file ==> Filled(trials, s', j))
            && forall f :: ReceiptKept(trials, s', f)
  {
    var s' := Commit(s, d, p, Fill(trials[i].receiptFile, OwnReceipt(trials[i]), i));
    forall f ensures ReceiptKept(trials, s', f) {
      assert ReceiptKept(trials, s, f);
    }
  }

  lemma {:induction false} FillRecords(trials: seq<Trial>, s: State, d: nat, p: Process, i: nat)
    requires Safe(trials, s) && Recorded(trials, s) && d in s.procs && s.procs[d].pc == Write(i)
    requires i < |trials| && p.pc == Dispatch(i)
    ensures Recorded(trials, Commit(s, d, p, Fill(trials[i].receiptFile, OwnReceipt(trials[i]), i)))
  {
    var file := trials[i].receiptFile;
    var s' := Commit(s, d, p, Fill(file, OwnReceipt(trials[i]), i));
    assert Holds(trials, s, d, i);
    hide Safe;
    FillKeeps(trials, s, d, p, i);
    hide Holds, ReceiptKept, Filled;
    forall q: nat | q < |s.log| && s.log[q].Dispatched? ensures trials[s.log[q].trial].receiptFile != file {
      assert s.log[q] == Dispatched(s.log[q].driver, s.log[q].trial);
      FillIsAlone(trials, s, d, i, s.log[q].trial);
    }
    forall e: nat | e in s.procs && s.procs[e].pc.Dispatch? ensures trials[s.procs[e].pc.trial].receiptFile != file {
      FillIsAlone(trials, s, d, i, s.procs[e].pc.trial);
    }
  }

  // Steps that write no receipt but a new empty one, and dispatch nothing.
  lemma {:induction false} OtherRecords(trials: seq<Trial>, s: State, s': State)
    requires Recorded(trials, s)
    requires forall file :: file in s'.receipts && s'.receipts[file].Some? ==> file in s.receipts && s'.receipts[file] == s.receipts[file]
    requires forall file :: file in s.receipts && s.receipts[file].Some? ==> file in s'.receipts && s'.receipts[file] == s.receipts[file]
    requires s'.log == s.log || exists d, i :: s'.log == s.log + [Claimed(d, i)]
    requires forall d: nat :: d in s'.procs && (s'.procs[d].pc.Dispatch? || s'.procs[d].pc.Wait?) ==>
               d in s.procs && s.procs[d].pc == s'.procs[d].pc
    ensures Recorded(trials, s')
  {
    assert forall q :: 0 <= q < |s.log| ==> s'.log[q] == s.log[q];
    forall file ensures ReceiptKept(trials, s', file) {
      assert ReceiptKept(trials, s, file);
      if file in s'.receipts && s'.receipts[file].Some? {
        var d: nat, i: nat :| i < |trials| && Claimed(d, i) in s.log
                              && trials[i].receiptFile == file && s.receipts[file] == Some(OwnReceipt(trials[i]));
        assert Claimed(d, i) in s'.log;
      }
    }
    hide ReceiptKept;
    assert forall i :: Filled(trials, s, i) ==> Filled(trials, s', i);
    hide Filled;
  }

  lemma {:induction false} LaunchRecords(trials: seq<Trial>, s: State, d: nat, p: Process, i: nat)
    requires Recorded(trials, s) && d in s.procs && s.procs[d].pc == Dispatch(i)
    requires i < |trials| && trials[i].adapter != Missing && p.pc == Wait(i)
    ensures Recorded(trials, Commit(s, d, p, Launch(i)))
  {
    var s' := Commit(s, d, p, Launch(i));
    assert s'.log == s.log + [Dispatched(d, i)];
    assert forall q :: 0 <= q < |s.log| ==> s'.log[q] == s.log[q];
    assert s'.log[|s.log|] == Dispatched(d, i);
    forall file ensures ReceiptKept(trials, s', file) {
      assert ReceiptKept(trials, s, file);
    }
    hide ReceiptKept;
    assert forall j :: Filled(trials, s, j) ==> Filled(trials, s', j);
    hide Filled;
  }

  lemma {:induction false} DriveRecords(trials: seq<Trial>, s: State, d: nat, c: Choice)
    requires Safe(trials, s) && Recorded(trials, s) && d in s.procs
    ensures Recorded(trials, Drive(trials, s, d, c))
  {
    hide NextMove, Safe, Recorded;
    var p := s.procs[d];
    var m := NextMove(trials, s, p, c);
    MoveFacts(trials, s, p, c);
    MoveRecords(trials, s, p, c);
    match m
    case Fill(_, _, i) => FillRecords(trials, s, d, Moved(p, m), i);
    case Launch(i) => LaunchRecords(trials, s, d, Moved(p, m), i);
    case _ => OtherRecords(trials, s, Commit(s, d, Moved(p, m), m));
  }

  // After any run, every written receipt is the one of a claimed trial, naming its pair or itself
  // and its job, and every dispatched trial has its own.
  lemma {:induction false} EveryRunIsRecorded(trials: seq<Trial>, jobs: map<string, string>, run: seq<Step>)
    ensures Recorded(trials, After(trials, jobs, run))
  {
    if run != [] {
      var before, step := run[..|run| - 1], run[|run| - 1];
      EveryRunIsRecorded(trials, jobs, before);
      EveryRunIsSafe(trials, jobs, before);
      var s := After(trials, jobs, before);
      hide Safe, Recorded;
      if step.Advance? && step.driver in s.procs {
        DriveRecords(trials, s, step.driver, step.choice);
      } else {
        OtherRecords(trials, s, Perform(trials, s, step));
      }
    }
  }

  // ----- Results -----

  // Before step m, trial j had a report fit to be retained.
  ghost predicate Reported(trials: seq<Trial>, jobs: map<string, string>, run: seq<Step>, j: nat, m: nat) {
    j < |trials| && m < |run| && !trials[j].gap
    && var s := After(trials, jobs, run[..m]);
       trials[j].reportFile in s.reports
       && (trials[j].adapter == Context ==> Bound(trials[j]) && Paired(s.reports[trials[j].reportFile]))
  }

  lemma {:induction false} MoveRetains(trials: seq<Trial>, s: State, p: Process, c: Choice)
    requires NextMove(trials, s, p, c).Retain?
    ensures p.pc.Reconcile? && p.pc.upto < |trials|
    ensures var t := trials[p.pc.upto];
            && NextMove(trials, s, p, c).resultFile == t.resultFile && !t.gap && t.reportFile in s.reports
            && (t.adapter == Context ==> Bound(t) && Paired(s.reports[t.reportFile]))
  {
    var t := trials[p.pc.upto];
    if t.reportFile in s.reports {
      ProvesIsTerminal(s.reports[t.reportFile], t);
    }
    hide BothArms, Paired;
  }

  // A result is there only for a trial without a gap that has had its report; that of a context
  // trial is bound to its arm and shows both.
  lemma {:induction false} ResultsAreReported(trials: seq<Trial>, jobs: map<string, string>, run: seq<Step>, file: string)
    requires file in After(trials, jobs, run).results
    ensures exists j: nat, m: nat :: Reported(trials, jobs, run, j, m) && trials[j].resultFile == file
  {
    var n := |run| - 1;
    var before, step := run[..n], run[n];
    var s := After(trials, jobs, before);
    if file in s.results {
      ResultsAreReported(trials, jobs, before, file);
      var j: nat, m: nat :| Reported(trials, jobs, before, j, m) && trials[j].resultFile == file;
      assert before[..m] == run[..m];
      assert Reported(trials, jobs, run, j, m);
    } else {
      var d, c := step.driver, step.choice;
      MoveRetains(trials, s, s.procs[d], c);
      hide NextMove;
      assert Reported(trials, jobs, run, s.procs[d].pc.upto, n);
    }
  }

  // ----- Why a driver fails -----

  // Step m ends driver d with an error.
  ghost predicate Fails(trials: seq<Trial>, s: State, step: Step, d: nat) {
    d in s.procs && StudyProgress.By(step, d) && !StudyProgress.Starts(step)
    && var pc := s.procs[d].pc;
       step.Crash? || (step.choice.Raise? && !pc.Finished?)
       || match pc
          case Settle(j, _) => j < |trials| && !Clear(trials[j], s)
          case Reconcile(j, _) =>
            && j < |trials| && !trials[j].gap && trials[j].adapter == Context
            && trials[j].reportFile in s.reports && !(Bound(trials[j]) && Paired(s.reports[trials[j].reportFile]))
          case Check(i) => i < |trials| && (trials[i].receiptFile in s.receipts || !Pinned(trials[i], s))
          case Claim(i) => i < |trials| && trials[i].receiptFile in s.receipts
          case Dispatch(i) => i < |trials| && trials[i].adapter == Missing
          case Wait(i) => i < |trials| && trials[i].adapter == Eval && step.choice.Diagnosed?
          case _ => false
  }

  ghost predicate FailsAt(trials: seq<Trial>, jobs: map<string, string>, run: seq<Step>, d: nat, m: nat) {
    m < |run| && Fails(trials, After(trials, jobs, run[..m]), run[m], d)
  }

  // The trial a driver stands at, past settling and reconciling, is one of the schedule.
  predicate Standing(trials: seq<Trial>, pc: Pc) {
    match pc
    case Check(i) => i < |trials|
    case Claim(i) => i < |trials|
    case Write(i) => i < |trials|
    case Dispatch(i) => i < |trials|
    case Wait(i) => i < |trials|
    case _ => true
  }

  lemma {:induction false} DriversStand(trials: seq<Trial>, s: State, d: nat)
    requires Safe(trials, s) && StudyAdmissions.Counted(trials, s) && Recorded(trials, s) && d in s.procs
    ensures Standing(trials, s.procs[d].pc)
  {
    var pc := s.procs[d].pc;
    assert StudyAdmissions.CountedFor(trials, s, d);
    assert Pending(pc) ==> Holds(trials, s, d, pc.trial);
    if pc.Wait? {
      assert Dispatched(d, pc.trial) in s.log;
      var q :| 0 <= q < |s.log| && s.log[q] == Dispatched(d, pc.trial);
      assert Filled(trials, s, s.log[q].trial);
    }
  }

  lemma {:induction false} StepFails(trials: seq<Trial>, s: State, step: Step, d: nat)
    requires d in s.procs ==> Standing(trials, s.procs[d].pc)
    ensures var s' := Perform(trials, s, step);
            (d in s'.procs && s'.procs[d].pc.Failed?) <==> (d in s.procs && s.procs[d].pc.Failed?) || Fails(trials, s, step, d)
  {
    if !StudyProgress.By(step, d) {
      StudyProgress.Bystander(trials, s, step, d);
    } else if step.Advance? && d in s.procs {
      MoveFails(trials, s, d, step.choice);
      StudyAdmissions.DriveEffect(trials, s, d, step.choice);
    }
    hide NextMove, ValidPairs, Clear, Pinned;
  }

  lemma {:induction false} MoveFails(trials: seq<Trial>, s: State, d: nat, c: Choice)
    requires d in s.procs && Standing(trials, s.procs[d].pc)
    ensures Moved(s.procs[d], NextMove(trials, s, s.procs[d], c)).pc.Failed? <==>
            s.procs[d].pc.Failed? || Fails(trials, s, Advance(d, c), d)
  {
    var pc := s.procs[d].pc;
    if pc.Settle? && pc.upto < |trials| {
      SettledIsClear(trials[pc.upto], s);
    } else if pc.Reconcile? && pc.upto < |trials| && trials[pc.upto].reportFile in s.reports {
      ProvesIsTerminal(s.reports[trials[pc.upto].reportFile], trials[pc.upto]);
    }
    hide Clear, Settled, BothArms, Paired, ArmBound, Bound;
  }

  // A driver has failed exactly when it crashed, met an error, or was refused at some step for one
  // of these reasons: an admission not proved ended, a report not fit to be retained, a receipt
  // already there, a changed job, a trial without an adapter, a failed eval.
  lemma {:induction false} FailedForReason(trials: seq<Trial>, jobs: map<string, string>, run: seq<Step>, d: nat)
    ensures (d in After(trials, jobs, run).procs && After(trials, jobs, run).procs[d].pc.Failed?) <==>
            exists m: nat :: FailsAt(trials, jobs, run, d, m)
  {
    if run != [] {
      var n := |run| - 1;
      var before := run[..n];
      var s := After(trials, jobs, before);
      FailedForReason(trials, jobs, before, d);
      EveryRunIsSafe(trials, jobs, before);
      StudyAdmissions.EveryRunIsLimited(trials, jobs, before);
      EveryRunIsRecorded(trials, jobs, before);
      if d in s.procs {
        DriversStand(trials, s, d);
      }
      StepFails(trials, s, run[n], d);
      hide Safe, StudyAdmissions.Counted, StudyAdmissions.ClaimsSelected, Recorded, Perform, Standing;
      FailsOneMore(trials, jobs, run, d);
    }
  }

  lemma {:induction false} FailsOneMore(trials: seq<Trial>, jobs: map<string, string>, run: seq<Step>, d: nat)
    requires run != []
    ensures var n := |run| - 1;
            (exists m: nat :: FailsAt(trials, jobs, run, d, m)) <==>
            (exists m: nat :: FailsAt(trials, jobs, run[..n], d, m)) || Fails(trials, After(trials, jobs, run[..n]), run[n], d)
  {
    hide Fails, After;
    var n := |run| - 1;
    var before := run[..n];
    forall m: nat | m < n ensures before[..m] == run[..m] {
    }
    assert FailsAt(trials, jobs, run, d, n) <==> Fails(trials, After(trials, jobs, before), run[n], d);
    forall m: nat | m < n ensures FailsAt(trials, jobs, run, d, m) <==> FailsAt(trials, jobs, before, d, m) {
    }
  }
}
