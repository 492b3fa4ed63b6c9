// The durable admission protocol of a study (scripts/judgement-study-live.py).
//
// Drivers share only files: receipts are created exclusively before an adapter is dispatched,
// adapters may or may not write a report, and results replace each other atomically. Each step
// below is one file operation of one driver, so any interleaving of drivers, with a crash
// anywhere, is a sequence of steps.
module StudyProtocol {
  import opened Wrappers

  datatype Adapter = Normal | Context | Navigation | Eval | Missing

  datatype Trial = Trial(id: string, caseId: string, repetition: int, arm: string, adapter: Adapter,
                         pairId: Option<string>, reportArm: Option<string>, gap: bool,
                         jobFile: string, jobHash: string, receiptFile: string, reportFile: string, resultFile: string)

  function AdmissionId(t: Trial): string {
    if t.pairId.Some? then t.pairId.value else t.id
  }

  // ----- Reports and their terminal proof -----

  datatype ArmReport = ArmReport(arm: string, verified: bool, outcome: string)

  datatype Report = Report(outcome: string, status: string, turn: bool, historyComplete: bool, arms: seq<ArmReport>)

  const OUTCOMES: set<string> := {"succeeded", "failed", "cancelled"}

  predicate BothArms(r: Report) {
    |r.arms| == 2 && {r.arms[0].arm, r.arms[1].arm} == {"off", "on"}
  }

  predicate PairTerminal(r: Report) {
    BothArms(r) && forall i :: 0 <= i < 2 ==> r.arms[i].verified && r.arms[i].outcome in OUTCOMES
  }

  predicate ArmBound(t: Trial) {
    t.pairId.Some? && t.pairId.value != "" && t.reportArm == Some(t.arm)
  }

  predicate NormalTerminal(r: Report) {
    r.outcome in OUTCOMES && r.status !in {"timed_out", "public_operation_failed"} && r.turn && r.historyComplete
  }

  // The report proves the trial's admission terminal; eval and navigation reports never do.
  predicate Proves(r: Report, t: Trial) {
    match t.adapter
    case Normal => NormalTerminal(r)
    case Context => PairTerminal(r) && ArmBound(t)
    case _ => false
  }

  // ----- State -----

  datatype Receipt = Receipt(id: string, jobHash: string)

  datatype Mode = Running(limit: nat, wanted: set<nat>) | Reconciling | Rebinding

  datatype AfterSettle = AtEntry | Before(trial: nat)

  datatype AfterReconcile = ToScan(trial: nat) | ToFinish

  datatype Pc =
    | Settle(upto: nat, after: AfterSettle)         // require_settled_admissions, about to look at one trial
    | Reconcile(upto: nat, next: AfterReconcile)    // reconcile, about to look at one trial
    | Scan(trial: nat)                              // head of the admission loop
    | Check(trial: nat)                             // receipt absent, job and subject unchanged?
    | Claim(trial: nat)                             // exclusive creation of the receipt
    | Write(trial: nat)                             // its contents
    | Dispatch(trial: nat)
    | Wait(trial: nat)
    | Finished
    | Failed

  datatype Process = Process(mode: Mode, pc: Pc, admitted: nat)

  datatype Event = Claimed(driver: nat, trial: nat) | Dispatched(driver: nat, trial: nat)

  // A receipt whose contents are not written yet is there, but holds nothing.
  datatype State = State(receipts: map<string, Option<Receipt>>, reports: map<string, Report>, results: set<string>,
                         jobs: map<string, string>, procs: map<nat, Process>, log: seq<Event>)

  function Start(jobs: map<string, string>): State {
    State(map[], map[], {}, jobs, map[], [])
  }

  predicate JobUnchanged(t: Trial, s: State) {
    t.jobFile in s.jobs && s.jobs[t.jobFile] == t.jobHash
  }

  predicate Settled(t: Trial, s: State) {
    && t.receiptFile in s.receipts
    && s.receipts[t.receiptFile] == Some(Receipt(AdmissionId(t), t.jobHash)) && JobUnchanged(t, s)
    && t.reportFile in s.reports && Proves(s.reports[t.reportFile], t)
  }

  // An admitted trial without terminal proof.
  predicate Open(t: Trial, s: State) {
    t.receiptFile in s.receipts && !(t.reportFile in s.reports && Proves(s.reports[t.reportFile], t))
  }

  // ----- validate_context_pairs -----

  predicate InPair(t: Trial, id: string) {
    t.adapter == Context && !t.gap && t.pairId == Some(id)
  }

  // Every admitted pair is two trials, one per arm, sharing job, report and receipt.
  ghost predicate ValidPairs(trials: seq<Trial>) {
    && (forall i :: 0 <= i < |trials| && trials[i].adapter == Context && !trials[i].gap ==>
          trials[i].pairId.Some? && trials[i].pairId.value != "")
    && forall i :: 0 <= i < |trials| && trials[i].adapter == Context && !trials[i].gap ==>
         exists j: nat :: Partners(trials, i, j)
  }

  // Trials i and j are the two members of one pair.
  ghost predicate Partners(trials: seq<Trial>, i: nat, j: nat) {
    && i < |trials| && j < |trials| && i != j && trials[i].pairId.Some?
    && {trials[i].arm, trials[j].arm} == {"off", "on"}
    && (forall k :: 0 <= k < |trials| && InPair(trials[k], trials[i].pairId.value) <==> k == i || k == j)
    && trials[i].jobFile == trials[j].jobFile && trials[i].jobHash == trials[j].jobHash
    && trials[i].reportFile == trials[j].reportFile && trials[i].receiptFile == trials[j].receiptFile
    && trials[i].caseId == trials[j].caseId && trials[i].repetition == trials[j].repetition
  }

  // ----- Driver steps -----

  // Proceed: the operation succeeds. Diagnosed: the adapter exits nonzero. Raise: any other error.
  datatype Choice = Proceed | Diagnosed | Raise

  function LimitOf(p: Process): nat {
    if p.mode.Running? then p.mode.limit else 0
  }

  // What one step does, besides moving on: write a result, create a receipt, fill it in, dispatch.
  datatype Move =
    | GoTo(pc: Pc)
    | Retain(resultFile: string, pc: Pc)
    | Create(receiptFile: string, trial: nat)
    | Fill(receiptFile: string, receipt: Receipt, trial: nat)
    | Launch(trial: nat)

  function SettleMove(trials: seq<Trial>, s: State, p: Process, upto: nat, after: AfterSettle): Pc {
    if upto < |trials| then
      if trials[upto].receiptFile !in s.receipts || Settled(trials[upto], s) then Settle(upto + 1, after) else Failed
    else if after.AtEntry? then Reconcile(0, if p.mode.Running? then ToScan(0) else ToFinish)
    else Check(after.trial)
  }

  function ScanMove(trials: seq<Trial>, s: State, p: Process, i: nat): Pc {
    if i >= |trials| || p.admitted >= LimitOf(p) then Finished
    else if p.mode.Running? && i !in p.mode.wanted then Scan(i + 1)
    else if trials[i].gap || trials[i].resultFile in s.results then Scan(i + 1)
    else Settle(0, Before(i))
  }

  function ReconcileMove(trials: seq<Trial>, s: State, upto: nat, next: AfterReconcile): Move {
    if upto >= |trials| then GoTo(if next.ToScan? then Scan(next.trial) else Finished)
    else
      var t := trials[upto];
      if t.gap || t.reportFile !in s.reports then GoTo(Reconcile(upto + 1, next))
      else if t.adapter == Context && !(ArmBound(t) && BothArms(s.reports[t.reportFile])) then GoTo(Failed)
      else Retain(t.resultFile, Reconcile(upto + 1, next))
  }

  // What a driver does next, from its own state and the files it sees.
  function NextMove(trials: seq<Trial>, s: State, p: Process, c: Choice): Move {
    if c == Raise && !p.pc.Finished? then GoTo(Failed)
    else
      match p.pc
      case Settle(upto, after) => GoTo(SettleMove(trials, s, p, upto, after))
      case Reconcile(upto, next) => ReconcileMove(trials, s, upto, next)
      case Scan(i) => GoTo(ScanMove(trials, s, p, i))
      case Check(i) =>
        if i >= |trials| || trials[i].receiptFile in s.receipts || !JobUnchanged(trials[i], s) then GoTo(Failed)
        else GoTo(Claim(i))
      case Claim(i) =>
        if i >= |trials| || trials[i].receiptFile in s.receipts then GoTo(Failed)
        else Create(trials[i].receiptFile, i)
      case Write(i) =>
        if i >= |trials| then GoTo(Failed)
        else Fill(trials[i].receiptFile, Receipt(AdmissionId(trials[i]), trials[i].jobHash), i)
      case Dispatch(i) =>
        if i >= |trials| || trials[i].adapter == Missing then GoTo(Failed) else Launch(i)
      case Wait(i) =>
        if c == Diagnosed && i < |trials| && trials[i].adapter == Eval then GoTo(Failed)
        else GoTo(Reconcile(0, if c == Diagnosed then ToFinish else ToScan(i + 1)))
      case Finished => GoTo(Finished)
      case Failed => GoTo(Failed)
  }

  function Moved(p: Process, m: Move): Process {
    match m
    case GoTo(pc) => p.(pc := pc)
    case Retain(_, pc) => p.(pc := pc)
    case Create(_, i) => Process(p.mode, Write(i), p.admitted + 1)
    case Fill(_, _, i) => p.(pc := Dispatch(i))
    case Launch(i) => p.(pc := Wait(i))
  }

  // The step carried out on the shared files and the log.
  function Commit(s: State, d: nat, p: Process, m: Move): State {
    var procs := s.procs[d := p];
    match m
    case GoTo(_) => s.(procs := procs)
    case Retain(file, _) => s.(procs := procs, results := s.results + {file})
    case Create(file, i) => s.(procs := procs, receipts := s.receipts[file := None], log := s.log + [Claimed(d, i)])
    case Fill(file, receipt, _) => s.(procs := procs, receipts := s.receipts[file := Some(receipt)])
    case Launch(i) => s.(procs := procs, log := s.log + [Dispatched(d, i)])
  }

  // One step of a driver.
  function Drive(trials: seq<Trial>, s: State, d: nat, c: Choice): State
    requires d in s.procs
  {
    var m := NextMove(trials, s, s.procs[d], c);
    Commit(s, d, Moved(s.procs[d], m), m)
  }

  // ----- Runs -----

  datatype Step =
    | StartRun(driver: nat, limit: nat, wanted: set<nat>)
    | StartReconcile(driver: nat)
    | StartRebind(driver: nat)
    | Advance(driver: nat, choice: Choice)
    | Crash(driver: nat)
    | AdapterReports(trial: nat, report: Report)
    | JobChanges(file: string, hash: string)

  ghost predicate Enabled(trials: seq<Trial>, s: State, step: Step) {
    match step
    case StartRun(d, limit, _) => d !in s.procs && 0 < limit <= |trials| && ValidPairs(trials)
    case StartReconcile(d) => d !in s.procs
    case StartRebind(d) => d !in s.procs && ValidPairs(trials)
    case Advance(d, _) => d in s.procs
    case Crash(d) => d in s.procs
    case AdapterReports(i, _) => i < |trials| && exists d :: Dispatched(d, i) in s.log
    case JobChanges(_, _) => true
  }

  // Steps that are not enabled leave the state alone, so every sequence of steps is a run.
  ghost function Perform(trials: seq<Trial>, s: State, step: Step): State {
    if !Enabled(trials, s, step) then s
    else
      match step
      case StartRun(d, limit, wanted) => s.(procs := s.procs[d := Process(Running(limit, wanted), Settle(0, AtEntry), 0)])
      case StartReconcile(d) => s.(procs := s.procs[d := Process(Reconciling, Reconcile(0, ToFinish), 0)])
      case StartRebind(d) => s.(procs := s.procs[d := Process(Rebinding, Settle(0, AtEntry), 0)])
      case Advance(d, c) => Drive(trials, s, d, c)
      case Crash(d) => s.(procs := s.procs[d := s.procs[d].(pc := Failed)])
      case AdapterReports(i, report) => s.(reports := s.reports[trials[i].reportFile := report])
      case JobChanges(file, hash) => s.(jobs := s.jobs[file := hash])
  }

  ghost function After(trials: seq<Trial>, jobs: map<string, string>, run: seq<Step>): State {
    if run == [] then Start(jobs)
    else Perform(trials, After(trials, jobs, run[..|run| - 1]), run[|run| - 1])
  }

  // ----- Safety in every interleaving -----

  function ReceiptOf(trials: seq<Trial>, e: Event): Option<string> {
    if e.trial < |trials| then Some(trials[e.trial].receiptFile) else None
  }

  ghost predicate ClaimAt(trials: seq<Trial>, log: seq<Event>, p: int, file: string) {
    0 <= p < |log| && log[p].Claimed? && ReceiptOf(trials, log[p]) == Some(file)
  }

  ghost predicate DispatchAt(trials: seq<Trial>, log: seq<Event>, p: int, file: string) {
    0 <= p < |log| && log[p].Dispatched? && ReceiptOf(trials, log[p]) == Some(file)
  }

  // A receipt exists exactly when it was claimed, and was claimed once.
  ghost predicate ClaimedOnce(trials: seq<Trial>, s: State) {
    && (forall file :: file in s.receipts <==> exists p :: ClaimAt(trials, s.log, p, file))
    && (forall p, q, file :: ClaimAt(trials, s.log, p, file) && ClaimAt(trials, s.log, q, file) ==> p == q)
  }

  // Every dispatch follows a claim of the same receipt, by the same driver for the same trial, and
  // no receipt is dispatched twice.
  ghost predicate DispatchedOnce(trials: seq<Trial>, s: State) {
    && (forall q :: 0 <= q < |s.log| && s.log[q].Dispatched? ==>
          s.log[q].trial < |trials| && exists p :: 0 <= p < q && s.log[p] == Claimed(s.log[q].driver, s.log[q].trial))
    && (forall p, q, file :: DispatchAt(trials, s.log, p, file) && DispatchAt(trials, s.log, q, file) ==> p == q)
  }

  // Between claim and dispatch a driver holds its receipt alone.
  ghost predicate Holds(trials: seq<Trial>, s: State, d: nat, i: nat) {
    i < |trials| && Claimed(d, i) in s.log && forall p :: !DispatchAt(trials, s.log, p, trials[i].receiptFile)
  }

  predicate Pending(pc: Pc) {
    pc.Write? || pc.Dispatch?
  }

  ghost predicate HoldersAreSole(trials: seq<Trial>, s: State) {
    forall d :: d in s.procs && Pending(s.procs[d].pc) ==> Holds(trials, s, d, s.procs[d].pc.trial)
  }

  ghost predicate Safe(trials: seq<Trial>, s: State) {
    ClaimedOnce(trials, s) && DispatchedOnce(trials, s) && HoldersAreSole(trials, s)
  }

  // Steps that change neither receipts nor the log, and let no driver reach Write or Dispatch.
  lemma {:induction false} QuietKeepsSafe(trials: seq<Trial>, s: State, s': State)
    requires Safe(trials, s) && (forall file :: file in s'.receipts <==> file in s.receipts) && s'.log == s.log
    requires forall d :: d in s'.procs && Pending(s'.procs[d].pc) ==>
               d in s.procs && Pending(s.procs[d].pc) && s.procs[d].pc.trial == s'.procs[d].pc.trial
    ensures Safe(trials, s')
  {
  }

  lemma {:induction false} ClaimKeepsSafe(trials: seq<Trial>, s: State, d: nat, p: Process, i: nat)
    requires Safe(trials, s) && i < |trials| && trials[i].receiptFile !in s.receipts && p.pc == Write(i)
    ensures Safe(trials, Commit(s, d, p, Create(trials[i].receiptFile, i)))
  {
    var s' := Commit(s, d, p, Create(trials[i].receiptFile, i));
    var n := |s.log|;
    assert forall p :: 0 <= p < n ==> s'.log[p] == s.log[p];
    assert forall p, file :: p < n ==> (ClaimAt(trials, s'.log, p, file) <==> ClaimAt(trials, s.log, p, file));
    assert forall p, file :: DispatchAt(trials, s'.log, p, file) <==> DispatchAt(trials, s.log, p, file);
    assert ClaimAt(trials, s'.log, n, trials[i].receiptFile);
    forall q | 0 <= q < |s'.log| && s'.log[q].Dispatched?
      ensures s'.log[q].trial < |trials| && exists p :: 0 <= p < q && s'.log[p] == Claimed(s'.log[q].driver, s'.log[q].trial)
    {
      var p :| 0 <= p < q && s.log[p] == Claimed(s.log[q].driver, s.log[q].trial);
      assert s'.log[p] == s.log[p];
    }
    forall p ensures !DispatchAt(trials, s'.log, p, trials[i].receiptFile) {
      if DispatchAt(trials, s.log, p, trials[i].receiptFile) {
        var c :| 0 <= c < p && s.log[c] == Claimed(s.log[p].driver, s.log[p].trial);
        assert ClaimAt(trials, s.log, c, trials[i].receiptFile);
      }
    }
  }

  lemma {:induction false} DispatchKeepsSafe(trials: seq<Trial>, s: State, d: nat, p: Process, i: nat)
    requires Safe(trials, s) && d in s.procs && s.procs[d].pc == Dispatch(i) && i < |trials| && p.pc == Wait(i)
    ensures Safe(trials, Commit(s, d, p, Launch(i)))
  {
    var s' := Commit(s, d, p, Launch(i));
    var n, file := |s.log|, trials[i].receiptFile;
    assert forall p :: 0 <= p < n ==> s'.log[p] == s.log[p];
    assert forall p, f :: ClaimAt(trials, s'.log, p, f) <==> ClaimAt(trials, s.log, p, f);
    assert forall p, f :: p < n ==> (DispatchAt(trials, s'.log, p, f) <==> DispatchAt(trials, s.log, p, f));
    assert Holds(trials, s, d, i);
    var c :| 0 <= c < n && s.log[c] == Claimed(d, i);
    assert s'.log[c] == Claimed(d, i);
    forall q | 0 <= q < |s'.log| && s'.log[q].Dispatched?
      ensures s'.log[q].trial < |trials| && exists p :: 0 <= p < q && s'.log[p] == Claimed(s'.log[q].driver, s'.log[q].trial)
    {
      if q < n {
        var p :| 0 <= p < q && s.log[p] == Claimed(s.log[q].driver, s.log[q].trial);
        assert s'.log[p] == s.log[p];
      }
    }
    forall e | e in s'.procs && Pending(s'.procs[e].pc) ensures Holds(trials, s', e, s'.procs[e].pc.trial) {
      var j := s'.procs[e].pc.trial;
      assert e != d && Holds(trials, s, e, j);
      if trials[j].receiptFile == file {
        var p :| 0 <= p < n && s.log[p] == Claimed(e, j);
        assert ClaimAt(trials, s.log, p, file) && ClaimAt(trials, s.log, c, file);
      }
    }
  }

  // What the moves promise about the receipts they touch.
  lemma {:induction false} MoveFacts(trials: seq<Trial>, s: State, p: Process, c: Choice)
    ensures var m := NextMove(trials, s, p, c);
            match m
            case GoTo(pc) => !Pending(pc)
            case Retain(_, pc) => !Pending(pc)
            case Create(file, i) => p.pc == Claim(i) && i < |trials| && file == trials[i].receiptFile && file !in s.receipts
            case Fill(file, _, i) => p.pc == Write(i) && i < |trials| && file == trials[i].receiptFile
            case Launch(i) => p.pc == Dispatch(i) && i < |trials|
  {
  }

  lemma {:induction false} DriveKeepsSafe(trials: seq<Trial>, s: State, d: nat, c: Choice)
    requires Safe(trials, s) && d in s.procs
    ensures Safe(trials, Drive(trials, s, d, c))
  {
    hide NextMove, ClaimedOnce, DispatchedOnce, Holds;
    var p := s.procs[d];
    var m := NextMove(trials, s, p, c);
    MoveFacts(trials, s, p, c);
    match m
    case Create(_, i) => ClaimKeepsSafe(trials, s, d, Moved(p, m), i);
    case Launch(i) => DispatchKeepsSafe(trials, s, d, Moved(p, m), i);
    case Fill(_, _, i) =>
      HeldReceiptExists(trials, s, d, i);
      QuietKeepsSafe(trials, s, Drive(trials, s, d, c));
    case _ => QuietKeepsSafe(trials, s, Drive(trials, s, d, c));
  }

  lemma {:induction false} HeldReceiptExists(trials: seq<Trial>, s: State, d: nat, i: nat)
    requires ClaimedOnce(trials, s) && Holds(trials, s, d, i)
    ensures trials[i].receiptFile in s.receipts
  {
    var p :| 0 <= p < |s.log| && s.log[p] == Claimed(d, i);
    assert ClaimAt(trials, s.log, p, trials[i].receiptFile);
  }

  // In every run of any drivers, crashes included, each receipt is claimed at most once, and
  // dispatched at most once, after that claim.
  lemma {:induction false} EveryRunIsSafe(trials: seq<Trial>, jobs: map<string, string>, run: seq<Step>)
    ensures Safe(trials, After(trials, jobs, run))
  {
    if run != [] {
      var n := |run| - 1;
      EveryRunIsSafe(trials, jobs, run[..n]);
      var s := After(trials, jobs, run[..n]);
      var step := run[n];
      if Enabled(trials, s, step) && step.Advance? {
        DriveKeepsSafe(trials, s, step.driver, step.choice);
      } else {
        QuietKeepsSafe(trials, s, Perform(trials, s, step));
      }
    }
  }
}
