// What a driver of the study protocol does with its schedule: why it stops, what it has looked at
// before each claim, and what it leaves behind. Everything here is said of the states and the log
// of a run, and of where the drivers stand in it.
module StudyProgress {
  import opened StudyProtocol
  import StudyAdmissions
  import opened Wrappers

  // The step is taken by driver d, or starts or stops it.
  predicate By(step: Step, d: nat) {
    match step
    case StartRun(e, _, _) => e == d
    case StartReconcile(e) => e == d
    case StartRebind(e) => e == d
    case Advance(e, _) => e == d
    case Crash(e) => e == d
    case _ => false
  }

  predicate Starts(step: Step) {
    step.StartRun? || step.StartReconcile? || step.StartRebind?
  }

  // The files a study leaves only grow: nothing removes a report, a result or an event.
  ghost predicate Grows(s: State, s': State) {
    && |s.log| <= |s'.log| && s'.log[..|s.log|] == s.log
    && (forall file :: file in s.reports ==> file in s'.reports)
    && s.results <= s'.results
  }

  // What a step that is not of driver d leaves alone.
  lemma {:induction false} Bystander(trials: seq<Trial>, s: State, step: Step, d: nat)
    requires !By(step, d)
    ensures var s' := Perform(trials, s, step);
            && Grows(s, s')
            && (d in s'.procs <==> d in s.procs) && (d in s.procs ==> s'.procs[d] == s.procs[d])
            && (forall q :: |s.log| <= q < |s'.log| ==> s'.log[q].driver != d)
  {
    if step.Advance? && step.driver in s.procs {
      StudyAdmissions.DriveEffect(trials, s, step.driver, step.choice);
    }
    hide NextMove, ValidPairs;
  }

  lemma {:induction false} StepGrows(trials: seq<Trial>, s: State, step: Step)
    ensures Grows(s, Perform(trials, s, step))
  {
    hide NextMove, ValidPairs;
  }

  lemma {:induction false} RunGrows(trials: seq<Trial>, jobs: map<string, string>, run: seq<Step>, m: nat)
    requires m <= |run|
    ensures Grows(After(trials, jobs, run[..m]), After(trials, jobs, run))
  {
    if m == |run| {
      assert run[..m] == run;
    } else {
      var n := |run| - 1;
      RunGrows(trials, jobs, run[..n], m);
      assert run[..n][..m] == run[..m];
      hide Perform;
      StepGrows(trials, After(trials, jobs, run[..n]), run[n]);
    }
  }

  // ----- Where a run stops -----

  // After these a driver admits nothing more: a nonzero exit of its adapter, an error, a crash.
  ghost predicate Stops(s: State, step: Step, d: nat) {
    d in s.procs
    && match step
       case Advance(e, Diagnosed) => e == d && s.procs[d].pc.Wait?
       case Advance(e, Raise) => e == d
       case Crash(e) => e == d
       case _ => false
  }

  predicate Stopping(pc: Pc) {
    pc.Finished? || pc.Failed? || (pc.Reconcile? && pc.next.ToFinish?)
  }

  lemma {:induction false} StoppingStays(trials: seq<Trial>, s: State, step: Step, d: nat)
    requires d in s.procs && Stopping(s.procs[d].pc)
    ensures var s' := Perform(trials, s, step);
            d in s'.procs && Stopping(s'.procs[d].pc) && forall q :: |s.log| <= q < |s'.log| ==> s'.log[q].driver != d
  {
    if By(step, d) {
      if step.Advance? {
        StudyAdmissions.DriveEffect(trials, s, d, step.choice);
      }
      hide ValidPairs;
    } else {
      Bystander(trials, s, step, d);
    }
  }

  lemma {:induction false} StopsIsStopping(trials: seq<Trial>, s: State, step: Step, d: nat)
    requires Stops(s, step, d)
    ensures var s' := Perform(trials, s, step);
            d in s'.procs && Stopping(s'.procs[d].pc) && s'.log == s.log
  {
  }

  // Once its adapter has exited nonzero, or after an error or a crash, a driver claims and
  // dispatches nothing more, whatever happens after.
  lemma {:induction false} NothingAfterStop(trials: seq<Trial>, jobs: map<string, string>, run: seq<Step>, n: nat, d: nat, q: nat)
    requires n < |run| && Stops(After(trials, jobs, run[..n]), run[n], d)
    requires |After(trials, jobs, run[..n]).log| <= q < |After(trials, jobs, run).log|
    ensures After(trials, jobs, run).log[q].driver != d
  {
    StopLasts(trials, jobs, run, n, d);
  }

  lemma {:induction false} StopLasts(trials: seq<Trial>, jobs: map<string, string>, run: seq<Step>, n: nat, d: nat)
    requires n < |run| && Stops(After(trials, jobs, run[..n]), run[n], d)
    ensures var s, s' := After(trials, jobs, run[..n]), After(trials, jobs, run);
            d in s'.procs && Stopping(s'.procs[d].pc) && forall q :: |s.log| <= q < |s'.log| ==> s'.log[q].driver != d
  {
    hide Stops, Perform, Stopping;
    var k := |run| - 1;
    if n == k {
      StopsIsStopping(trials, After(trials, jobs, run[..n]), run[n], d);
    } else {
      var before := run[..k];
      assert before[..n] == run[..n];
      StopLasts(trials, jobs, before, n, d);
      StoppingStays(trials, After(trials, jobs, before), run[k], d);
      StepGrows(trials, After(trials, jobs, before), run[k]);
    }
  }

  // ----- What a finished run has covered -----

  // The adapter of driver d exited nonzero at step n.
  ghost predicate DiagnosedAt(trials: seq<Trial>, jobs: map<string, string>, run: seq<Step>, d: nat, n: nat) {
    n < |run| && run[n] == Advance(d, Diagnosed)
    && var s := After(trials, jobs, run[..n]); d in s.procs && s.procs[d].pc.Wait?
  }

  ghost predicate Undiagnosed(trials: seq<Trial>, jobs: map<string, string>, run: seq<Step>, d: nat) {
    forall n :: !DiagnosedAt(trials, jobs, run, d, n)
  }

  // Up to here driver d has dealt with the schedule.
  function Front(trials: seq<Trial>, p: Process): nat {
    match p.pc
    case Settle(_, after) => if after.Before? then after.trial else 0
    case Reconcile(_, next) => if next.ToScan? then next.trial else |trials|
    case Scan(i) => i
    case Check(i) => i
    case Claim(i) => i
    case Write(i) => i + 1
    case Dispatch(i) => i + 1
    case Wait(i) => i + 1
    case Finished => if p.mode.Running? && p.admitted < p.mode.limit then |trials| else 0
    case Failed => 0
  }

  ghost predicate Dealt(trials: seq<Trial>, s: State, d: nat, j: nat)
    requires d in s.procs && s.procs[d].mode.Running? && j < |trials|
  {
    j !in s.procs[d].mode.wanted || trials[j].gap || trials[j].resultFile in s.results || Claimed(d, j) in s.log
  }

  ghost predicate DealtUpTo(trials: seq<Trial>, s: State, d: nat) {
    d in s.procs && s.procs[d].mode.Running? ==>
      !(s.procs[d].pc.Reconcile? && s.procs[d].pc.next.ToFinish?)
      && forall j: nat :: j < |trials| && j < Front(trials, s.procs[d]) ==> Dealt(trials, s, d, j)
  }

  lemma {:induction false} DealtLater(trials: seq<Trial>, s: State, s': State, d: nat, j: nat)
    requires d in s.procs && s.procs[d].mode.Running? && j < |trials| && Dealt(trials, s, d, j)
    requires Grows(s, s') && d in s'.procs && s'.procs[d].mode == s.procs[d].mode
    ensures Dealt(trials, s', d, j)
  {
    if Claimed(d, j) in s.log {
      assert Claimed(d, j) in s'.log[..|s.log|];
    }
  }

  lemma {:induction false} DriveDeals(trials: seq<Trial>, s: State, d: nat, c: Choice)
    requires d in s.procs && s.procs[d].mode.Running? && DealtUpTo(trials, s, d)
    requires !(c == Diagnosed && s.procs[d].pc.Wait?)
    ensures DealtUpTo(trials, Drive(trials, s, d, c), d)
  {
    var s', p := Drive(trials, s, d, c), s.procs[d];
    StepGrows(trials, s, Advance(d, c));
    FrontMoves(trials, s, d, c);
    hide NextMove, Drive;
    forall j: nat | j < |trials| && j < Front(trials, s'.procs[d]) ensures Dealt(trials, s', d, j) {
      if j < Front(trials, p) {
        DealtLater(trials, s, s', d, j);
      }
    }
  }

  // A move of an undiagnosed run passes over a trial it need not admit, or claims it.
  lemma {:induction false} FrontMoves(trials: seq<Trial>, s: State, d: nat, c: Choice)
    requires d in s.procs && s.procs[d].mode.Running? && DealtUpTo(trials, s, d)
    requires !(c == Diagnosed && s.procs[d].pc.Wait?)
    ensures var s', p := Drive(trials, s, d, c), s.procs[d];
            && d in s'.procs && s'.procs[d].mode == p.mode
            && !(s'.procs[d].pc.Reconcile? && s'.procs[d].pc.next.ToFinish?)
            && forall j: nat :: j < |trials| && Front(trials, p) <= j < Front(trials, s'.procs[d]) ==> Dealt(trials, s', d, j)
  {
    var s', p := Drive(trials, s, d, c), s.procs[d];
    var m := NextMove(trials, s, p, c);
    MovePasses(trials, s, p, c);
    StudyAdmissions.DriveEffect(trials, s, d, c);
    StepGrows(trials, s, Advance(d, c));
    assert m.Create? ==> s'.log[|s.log|] == Claimed(d, m.trial);
    hide NextMove, Drive, Front;
  }

  lemma {:induction false} MovePasses(trials: seq<Trial>, s: State, p: Process, c: Choice)
    requires p.mode.Running? && !(c == Diagnosed && p.pc.Wait?) && !(p.pc.Reconcile? && p.pc.next.ToFinish?)
    ensures var m := NextMove(trials, s, p, c);
            var p' := Moved(p, m);
            && p'.mode == p.mode
            && !(p'.pc.Reconcile? && p'.pc.next.ToFinish?)
            && forall j: nat :: j < |trials| && Front(trials, p) <= j < Front(trials, p') ==>
                 j !in p.mode.wanted || trials[j].gap || trials[j].resultFile in s.results || (m.Create? && m.trial == j)
  {
  }

  lemma {:induction false} RunDeals(trials: seq<Trial>, jobs: map<string, string>, run: seq<Step>, d: nat)
    requires Undiagnosed(trials, jobs, run, d)
    ensures DealtUpTo(trials, After(trials, jobs, run), d)
  {
    if run != [] {
      var k := |run| - 1;
      var before, step := run[..k], run[k];
      forall n: nat ensures !DiagnosedAt(trials, jobs, before, d, n) {
        assert !DiagnosedAt(trials, jobs, run, d, n);
        if n < k {
          assert before[..n] == run[..n];
        }
      }
      RunDeals(trials, jobs, before, d);
      assert !DiagnosedAt(trials, jobs, run, d, k);
      var s := After(trials, jobs, before);
      if !By(step, d) {
        Bystander(trials, s, step, d);
        StayDealt(trials, s, Perform(trials, s, step), d);
      } else if step.Advance? && d in s.procs && s.procs[d].mode.Running? {
        DriveDeals(trials, s, d, step.choice);
      } else {
        OutsideDeals(trials, s, step, d);
      }
    }
  }

  lemma {:induction false} StayDealt(trials: seq<Trial>, s: State, s': State, d: nat)
    requires DealtUpTo(trials, s, d) && Grows(s, s')
    requires (d in s'.procs <==> d in s.procs) && (d in s.procs ==> s'.procs[d] == s.procs[d])
    ensures DealtUpTo(trials, s', d)
  {
    if d in s.procs && s.procs[d].mode.Running? {
      forall j: nat | j < |trials| && j < Front(trials, s.procs[d]) ensures Dealt(trials, s', d, j) {
        DealtLater(trials, s, s', d, j);
      }
    }
  }

  lemma {:induction false} OutsideDeals(trials: seq<Trial>, s: State, step: Step, d: nat)
    requires DealtUpTo(trials, s, d) && By(step, d)
    requires step.Advance? && d in s.procs ==> !s.procs[d].mode.Running?
    ensures DealtUpTo(trials, Perform(trials, s, step), d)
  {
    hide ValidPairs;
    if step.Advance? && d in s.procs {
      StudyAdmissions.EndedStaysEnded(trials, s, s.procs[d], step.choice);
      StudyAdmissions.DriveEffect(trials, s, d, step.choice);
      hide NextMove;
    }
  }

  // A run that ends below its limit, with no adapter diagnosed, has come through its schedule:
  // every trial it selected that has no gap has its result, or was claimed by this run.
  lemma {:induction false} FinishedIsExhausted(trials: seq<Trial>, jobs: map<string, string>, run: seq<Step>, d: nat, j: nat)
    requires Undiagnosed(trials, jobs, run, d) && j < |trials|
    requires d in After(trials, jobs, run).procs
    requires var p := After(trials, jobs, run).procs[d];
             p.mode.Running? && p.pc.Finished? && p.admitted < p.mode.limit && j in p.mode.wanted
    ensures var s := After(trials, jobs, run);
            trials[j].gap || trials[j].resultFile in s.results || Claimed(d, j) in s.log
  {
    RunDeals(trials, jobs, run, d);
    assert Dealt(trials, After(trials, jobs, run), d, j);
  }

  // ----- Order -----

  // Driver d claims in the order of the schedule, and is past every trial it has claimed.
  ghost predicate InOrder(trials: seq<Trial>, s: State, d: nat) {
    && (forall q, r :: 0 <= q < r < |s.log| && ClaimBy(s.log[q], d) && ClaimBy(s.log[r], d) ==> s.log[q].trial < s.log[r].trial)
    && (d !in s.procs || !Stopping(s.procs[d].pc) ==>
          forall q :: 0 <= q < |s.log| && ClaimBy(s.log[q], d) ==> d in s.procs && s.log[q].trial < Front(trials, s.procs[d]))
  }

  predicate ClaimBy(e: Event, d: nat) {
    e.Claimed? && e.driver == d
  }

  lemma {:induction false} MoveGoesOn(trials: seq<Trial>, s: State, p: Process, c: Choice)
    requires !Stopping(p.pc)
    ensures var m := NextMove(trials, s, p, c);
            var p' := Moved(p, m);
            && (Stopping(p'.pc) || Front(trials, p) <= Front(trials, p'))
            && (m.Create? ==> Front(trials, p) == m.trial && p'.pc == Write(m.trial))
  {
  }

  lemma {:induction false} DriveInOrder(trials: seq<Trial>, s: State, d: nat, c: Choice)
    requires InOrder(trials, s, d) && d in s.procs && !Stopping(s.procs[d].pc)
    ensures InOrder(trials, Drive(trials, s, d, c), d)
  {
    var s', p := Drive(trials, s, d, c), s.procs[d];
    var m := NextMove(trials, s, p, c);
    StudyAdmissions.DriveEffect(trials, s, d, c);
    MoveGoesOn(trials, s, p, c);
    hide NextMove, Drive, Front, Stopping;
    assert forall q :: 0 <= q < |s.log| ==> s'.log[q] == s.log[q];
  }

  lemma {:induction false} StepInOrder(trials: seq<Trial>, s: State, step: Step, d: nat)
    requires InOrder(trials, s, d)
    ensures InOrder(trials, Perform(trials, s, step), d)
  {
    var s' := Perform(trials, s, step);
    if step.Advance? && step.driver == d && d in s.procs && !Stopping(s.procs[d].pc) {
      DriveInOrder(trials, s, d, step.choice);
    } else {
      StepGrows(trials, s, step);
      OtherStep(trials, s, step, d);
      hide Perform, Front, Stopping;
      assert forall q :: 0 <= q < |s.log| ==> s'.log[q] == s.log[q];
    }
  }

  lemma {:induction false} OtherStep(trials: seq<Trial>, s: State, step: Step, d: nat)
    requires !(step.Advance? && step.driver == d && d in s.procs && !Stopping(s.procs[d].pc))
    ensures var s' := Perform(trials, s, step);
            && (forall q :: |s.log| <= q < |s'.log| ==> s'.log[q].driver != d)
            && (d in s'.procs && !Stopping(s'.procs[d].pc) ==> d !in s.procs || s'.procs[d] == s.procs[d])
            && (d in s.procs ==> d in s'.procs)
  {
    if !By(step, d) {
      Bystander(trials, s, step, d);
    } else if d in s.procs && Stopping(s.procs[d].pc) {
      StoppingStays(trials, s, step, d);
    }
    hide NextMove, ValidPairs;
  }

  // A driver claims trials in schedule order, each at most once, and never turns back: wherever it
  // is about to admit a trial, it has claimed only earlier ones.
  lemma {:induction false} ClaimsInOrder(trials: seq<Trial>, jobs: map<string, string>, run: seq<Step>, d: nat)
    ensures InOrder(trials, After(trials, jobs, run), d)
  {
    if run != [] {
      ClaimsInOrder(trials, jobs, run[..|run| - 1], d);
      StepInOrder(trials, After(trials, jobs, run[..|run| - 1]), run[|run| - 1], d);
    }
  }

  // ----- What reconciling leaves behind -----

  // The step starts driver d, or takes it from its adapter's exit back to reconciling.
  ghost predicate Resumes(trials: seq<Trial>, s: State, step: Step, d: nat) {
    Enabled(trials, s, step) && By(step, d) && (step.Advance? ==> s.procs[d].pc.Wait?) && !step.Crash?
  }

  // Every trial without a gap that had its report by then has its result.
  ghost predicate Retained(trials: seq<Trial>, s: State, s': State, upto: nat) {
    forall j :: 0 <= j < |trials| && j < upto && !trials[j].gap && trials[j].reportFile in s.reports ==>
      trials[j].resultFile in s'.results
  }

  // Since s, driver d has retained every report, or is still about to.
  ghost predicate Retaining(trials: seq<Trial>, s: State, s': State, d: nat) {
    d in s'.procs
    && (Retained(trials, s, s', |trials|)
        || match s'.procs[d].pc
           case Settle(_, AtEntry) => true
           case Reconcile(upto, _) => Retained(trials, s, s', upto)
           case Failed => true
           case _ => false)
  }

  lemma {:induction false} RetainedLater(trials: seq<Trial>, s: State, s': State, s'': State, upto: nat)
    requires Retained(trials, s, s', upto) && Grows(s', s'')
    ensures Retained(trials, s, s'', upto)
  {
  }

  lemma {:induction false} ResumeRetains(trials: seq<Trial>, s: State, step: Step, d: nat)
    requires Resumes(trials, s, step, d)
    ensures Retaining(trials, s, Perform(trials, s, step), d)
  {
    hide ValidPairs;
  }

  lemma {:induction false} StepRetains(trials: seq<Trial>, s: State, s': State, step: Step, d: nat)
    requires Grows(s, s') && Retaining(trials, s, s', d)
    ensures Retaining(trials, s, Perform(trials, s', step), d)
  {
    var s'' := Perform(trials, s', step);
    StepGrows(trials, s', step);
    hide ValidPairs;
    if Retained(trials, s, s', |trials|) {
      RetainedLater(trials, s, s', s'', |trials|);
    }
    if !By(step, d) {
      Bystander(trials, s', step, d);
    } else if step.Advance? {
      StudyAdmissions.DriveEffect(trials, s', d, step.choice);
    }
  }

  // A driver that is done has retained, for every trial without a gap, each report that was there
  // when it started or when its last adapter exited.
  lemma {:induction false} FinishedRetains(trials: seq<Trial>, jobs: map<string, string>, run: seq<Step>, d: nat, n: nat, j: nat)
    requires n < |run| && Resumes(trials, After(trials, jobs, run[..n]), run[n], d) && j < |trials|
    requires var s := After(trials, jobs, run); d in s.procs && s.procs[d].pc.Finished?
    requires !trials[j].gap && trials[j].reportFile in After(trials, jobs, run[..n]).reports
    ensures trials[j].resultFile in After(trials, jobs, run).results
  {
    RunRetains(trials, jobs, run, d, n);
  }

  lemma {:induction false} RunRetains(trials: seq<Trial>, jobs: map<string, string>, run: seq<Step>, d: nat, n: nat)
    requires n < |run| && Resumes(trials, After(trials, jobs, run[..n]), run[n], d)
    ensures Retaining(trials, After(trials, jobs, run[..n]), After(trials, jobs, run), d)
  {
    hide Perform, Resumes, Retaining;
    var k := |run| - 1;
    if n == k {
      ResumeRetains(trials, After(trials, jobs, run[..n]), run[n], d);
    } else {
      var before := run[..k];
      assert before[..n] == run[..n];
      RunRetains(trials, jobs, before, d, n);
      RunGrows(trials, jobs, before, n);
      StepRetains(trials, After(trials, jobs, run[..n]), After(trials, jobs, before), run[k], d);
    }
  }
}
