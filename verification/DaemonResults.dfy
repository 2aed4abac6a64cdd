/** What one scan leaves behind, what becomes of its result, that no database is replaced without a
    backup, and why a loop ends. */
module DaemonResults {
  import opened Text
  import opened Daemon
  import opened DaemonRuns
  import opened DaemonService

  // ---------- a scan ----------

  /** The scan has run and is about to send its result: `report` is what aide wrote, 0 for nothing,
      and `before` the log until then. */
  predicate HasRun(s: State, before: nat, report: nat, code: int)
  {
    && s.lock == Some(Scan)
    && ((s.scan == SRan(code) && s.files.newLog == report && s.files.log == before) ||
        (s.scan == SCopied(code) && s.files.log == if report == 0 then before else report))
  }

  /** Its result is the last one in the channel and its report, if it wrote one, is the log. */
  predicate HasSent(s: State, before: nat, report: nat, code: int)
  {
    && s.scan.SSent? && s.queue != [] && s.queue[|s.queue| - 1] == code
    && s.files.log == if report == 0 then before else report
  }

  /** Without a database the result of a scan is always 18. */
  lemma ScanStarts(s: State, code: int, report: nat)
    requires s.scan.SLocked? && Exclusive(s)
    ensures HasRun(Next(s, ByScan(ScanRun(code, report))), s.files.log, report,
                   if s.files.live.None? then 18 else code)
  {
  }

  lemma HasRunStep(s: State, step: Step, before: nat, report: nat, code: int)
    requires Exclusive(s) && HasRun(s, before, report, code)
    ensures var u := Next(s, step);
            HasRun(u, before, report, code) || HasSent(u, before, report, code) || u.scan.SReport?
  {
    hide ScanNext, InitNext, CollectNext;
    match step
    case ByScan(a) => HasRunScan(s, a, before, report, code);
    case ByInit(a) => InitYields(s, a);
    case ByCollector(a) => CollectYields(s, a);
    case ByOther(_) =>
  }

  lemma HasRunScan(s: State, step: ScanStep, before: nat, report: nat, code: int)
    requires Exclusive(s) && HasRun(s, before, report, code)
    ensures var u := ScanNext(s, step);
            HasRun(u, before, report, code) || HasSent(u, before, report, code) || u.scan.SReport?
  {
    match step
    case ScanLock =>
    case ScanRun(_, _) =>
    case ScanCopy(_) =>
    case ScanSend =>
    case _ =>
  }

  /** Whatever the others do meanwhile, a scan ends up with its own result in the channel and its own
      report as the log, unless it has not got that far or the copy of the report fails. */
  lemma {:induction false} ScanDelivers(s: State, steps: seq<Step>, before: nat, report: nat, code: int)
      returns (i: nat)
    requires Exclusive(s) && HasRun(s, before, report, code)
    ensures i <= |steps|
    ensures var u := Run(s, steps[..i]);
            || (i == |steps| && HasRun(u, before, report, code))
            || HasSent(u, before, report, code) || u.scan.SReport?
    decreases |steps|
  {
    hide Next, Exclusive, HasRun, HasSent;
    i := 0;
    if steps != [] {
      var u := Next(s, steps[0]);
      ExclusiveStep(s, steps[0]);
      HasRunStep(s, steps[0], before, report, code);
      assert steps[..1][1..] == [] && Run(u, []) == u;
      if HasRun(u, before, report, code) {
        i := ScanDelivers(u, steps[1..], before, report, code);
        assert steps[..i + 1][1..] == steps[1..][..i];
        i := i + 1;
      } else {
        i := 1;
      }
    } else {
      assert Run(s, []) == s && steps[..0] == [];
    }
  }

  // ---------- what becomes of a result ----------

  /** Results are taken in order. None yet and a missing database are ignored, a passed scan and a
      configuration error are reported without the log, and all others need the lock for it. */
  lemma ResultIsHandled(s: State)
    requires s.collect.CIdle? && s.queue != []
    ensures var u := Next(Next(s, ByCollector(CollectReceive)), ByCollector(CollectDispatch));
            && u.queue == s.queue[1..] && u.lock == s.lock
            && (s.queue[0] in {-1, 18} ==> u.collect.CIdle?)
            && (s.queue[0] in {0, 17} ==> u.collect.CTell?)
            && (s.queue[0] !in {-1, 18, 0, 17} ==> u.collect.CWantLock?)
  {
  }

  /** With the lock, the log of a failed scan is uploaded exactly if it is there, can be opened and can
      be read; if it cannot be read that is reported. */
  lemma LogIsRead(s: State, outcome: Read)
    requires s.collect.CLocked?
    ensures var u := Next(s, ByCollector(CollectRead(outcome)));
            && (u.collect.CUpload? <==> s.files.log != 0 && outcome == ReadOk)
            && (u.collect.CReport? <==> s.files.log != 0 && outcome == ReadFails)
            && CollectFailing(u.collect) == !u.collect.CUpload?
  {
  }

  /** The log has been read and is being uploaded, or the upload has failed. */
  predicate Uploading(pc: CollectPc)
  {
    pc.CUpload? || pc == CReport(false) || pc == CErr(false) || pc == CDone(false)
  }

  /** A failed upload is reported and does not end the collector. */
  lemma UploadGoesOn(s: State, step: Step)
    requires Uploading(s.collect)
    ensures Uploading(Next(s, step).collect) || Next(s, step).collect.CIdle?
  {
    hide ScanNext, InitNext, CollectNext;
    match step
    case ByScan(a) => ScanLeavesCollector(s, a);
    case ByInit(a) => InitKeeps(s, a);
    case ByCollector(a) => CollectGoesOn(s, a);
    case ByOther(_) =>
  }

  lemma CollectGoesOn(s: State, step: CollectStep)
    requires Uploading(s.collect)
    ensures Uploading(CollectNext(s, step).collect) || CollectNext(s, step).collect.CIdle?
  {
  }

  lemma ScanLeavesCollector(s: State, step: ScanStep)
    ensures ScanNext(s, step).collect == s.collect
  {
  }

  // ---------- no database is replaced without a backup ----------

  predicate InstallsDatabase(s: State, step: Step)
  {
    step == ByInit(Building(InitCopy(true))) && s.init.IBuilt?
  }

  /** How often the live database is replaced. */
  function Installs(s: State, steps: seq<Step>): nat
    decreases |steps|
  {
    if steps == [] then 0
    else (if InstallsDatabase(s, steps[0]) then 1 else 0) + Installs(Next(s, steps[0]), steps[1..])
  }

  /** The init in progress has made its backup and not installed its database yet. */
  function BackupInHand(pc: InitPc): nat
  {
    if pc.IBacked? || pc.IBuilding? || pc.IBuilt? then 1 else 0
  }

  /** The live database changes only when it is replaced by the one `aide -i` built, and that uses up
      the backup in hand. */
  predicate InstallAccount(s: State, u: State, n: nat)
  {
    && s.files.backups <= u.files.backups
    && n + BackupInHand(u.init) <= BackupInHand(s.init) + (u.files.backups - s.files.backups)
    && u.files.live == if n == 0 then s.files.live else s.files.newDb
  }

  lemma InstallStep(s: State, step: Step)
    ensures InstallAccount(s, Next(s, step), if InstallsDatabase(s, step) then 1 else 0)
  {
    hide ScanNext, PollNext, EnterNext, BuildNext, FailNext, CollectNext, OtherNext;
    match step
    case ByScan(a) =>
      ScanFrame(s, a);
      ScanKeepsBackups(s, a);
    case ByInit(Polling(a)) => PollFrame(s, a);
    case ByInit(Entering(a)) => EnterInstalls(s, a);
    case ByInit(Building(a)) =>
      hide InstallAccount;
      BuildInstalls(s, a);
    case ByInit(Failing(a)) => FailInstalls(s, a);
    case ByCollector(a) => CollectFrame(s, a);
    case ByOther(a) => OtherInstalls(s, a);
  }

  lemma FailInstalls(s: State, step: FailStep)
    ensures FailNext(s, step).files == s.files && BackupInHand(FailNext(s, step).init) <= BackupInHand(s.init)
  {
  }

  lemma OtherInstalls(s: State, step: OtherStep)
    ensures OtherNext(s, step).files == s.files && OtherNext(s, step).init == s.init
  {
  }

  lemma ScanKeepsBackups(s: State, step: ScanStep)
    ensures ScanNext(s, step).files.backups == s.files.backups
  {
    match step
    case ScanRun(_, _) =>
    case ScanCopy(_) =>
    case _ =>
  }

  lemma EnterInstalls(s: State, step: EnterStep)
    ensures EnterNext(s, step).files == s.files && BackupInHand(EnterNext(s, step).init) <= BackupInHand(s.init)
  {
    match step
    case InitFlag =>
    case InitRemoveStat(_) =>
    case InitRemove(ok) => RemoveFrame(s, ok);
    case InitLock =>
  }

  lemma BuildInstalls(s: State, step: BuildStep)
    ensures InstallAccount(s, BuildNext(s, step), if InstallsDatabase(s, ByInit(Building(step))) then 1 else 0)
  {
    hide Serve, Tick;
    match step
    case InitBackup(_) =>
    case InitBuild =>
    case InitRetry =>
    case InitBuilt(_) =>
    case InitCopy(_) =>
    case _ =>
  }

  /** In every interleaving at least as many backups are made as databases are installed. */
  lemma {:induction false} BackupBeforeInstall(s: State, steps: seq<Step>)
    ensures s.files.backups <= Run(s, steps).files.backups
    ensures Installs(s, steps) <= BackupInHand(s.init) + (Run(s, steps).files.backups - s.files.backups)
    decreases |steps|
  {
    hide Next, InstallsDatabase, BackupInHand;
    if steps != [] {
      InstallStep(s, steps[0]);
      BackupBeforeInstall(Next(s, steps[0]), steps[1..]);
    }
  }

  // ---------- why a loop ends ----------

  /** A scan or re-init loop that has ended, or is about to, has reported an error or was told to. */
  predicate EndsForCause(s: State)
  {
    && (s.scan.SErrUnlock? || s.scan.SStopped? ==> s.cancelled)
    && (s.init.ILeave? || s.init.IStopped? ==> s.cancelled)
  }

  lemma EndsForCauseStep(s: State, step: Step)
    requires EndsForCause(s)
    ensures EndsForCause(Next(s, step))
  {
    hide ScanNext, PollNext, EnterNext, BuildNext, CollectNext;
    match step
    case ByScan(a) => ScanEndsForCause(s, a);
    case ByInit(Polling(a)) => PollEndsForCause(s, a);
    case ByInit(Entering(a)) => EnterEndsForCause(s, a);
    case ByInit(Building(a)) => BuildEndsForCause(s, a);
    case ByInit(Failing(_)) =>
    case ByCollector(a) => CollectEndsForCause(s, a);
    case ByOther(_) =>
  }

  lemma ScanEndsForCause(s: State, step: ScanStep)
    requires EndsForCause(s)
    ensures EndsForCause(ScanNext(s, step))
  {
    match step
    case ScanRun(_, _) =>
    case ScanCopy(_) =>
    case ScanErr =>
    case _ =>
  }

  lemma PollEndsForCause(s: State, step: PollStep)
    requires EndsForCause(s)
    ensures EndsForCause(PollNext(s, step))
  {
  }

  lemma EnterEndsForCause(s: State, step: EnterStep)
    requires EndsForCause(s)
    ensures EndsForCause(EnterNext(s, step))
  {
    match step
    case InitFlag =>
    case InitRemoveStat(_) =>
    case InitRemove(ok) => RemoveFrame(s, ok);
    case InitLock =>
  }

  lemma BuildEndsForCause(s: State, step: BuildStep)
    requires EndsForCause(s)
    ensures EndsForCause(BuildNext(s, step))
  {
    hide Serve, Tick;
    match step
    case InitBackup(_) =>
    case InitBuilt(_) =>
    case InitCopy(_) =>
    case _ =>
  }

  lemma CollectEndsForCause(s: State, step: CollectStep)
    requires EndsForCause(s)
    ensures EndsForCause(CollectNext(s, step))
  {
    match step
    case CollectReceive =>
    case CollectErr =>
    case _ =>
  }

  /** In every interleaving neither loop ends unless an error was reported or the daemon was ended. */
  lemma {:induction false} NoLoopEndsAlone(s: State, steps: seq<Step>)
    requires EndsForCause(s)
    ensures EndsForCause(Run(s, steps))
    decreases |steps|
  {
    hide Next, EndsForCause;
    if steps != [] {
      EndsForCauseStep(s, steps[0]);
      NoLoopEndsAlone(Next(s, steps[0]), steps[1..]);
    }
  }

  /** One init starts `aide -i` at most six times: it can be tried again exactly five times. */
  lemma RetriedFiveTimes(s: State)
    requires s.init.IBuilding?
    ensures Next(s, ByInit(Building(InitRetry))) != s <==> s.init.tries < 5
    ensures var u := Next(s, ByInit(Building(InitRetry)));
            u != s ==> u.init == IBuilding(s.trig.clock, s.init.tries + 1) && u.trig.clock == s.trig.clock + 1
  {
  }

  /** When told to, an idle loop can end. */
  lemma EndsWhenTold(s: State)
    requires s.cancelled
    ensures s.scan.SIdle? ==> Next(s, ByScan(ScanCancel)).scan.SStopped?
    ensures s.init.IIdle? ==> Next(s, ByInit(Polling(InitCancel))).init == IStopped(false)
    ensures s.collect.CIdle? ==> Next(s, ByCollector(CollectCancel)).collect.CStopped?
  {
  }

  // ---------- a failure is final ----------

  /** A step of the init that does not work out. */
  predicate FailsInit(s: State, step: InitStep)
  {
    || (step == Entering(InitRemoveStat(false)) && s.init.IFlagged?)
    || (step == Entering(InitRemove(false)) && s.init == IRemoving(true))
    || (step == Building(InitBackup(false)) && s.init.ILocked?)
    || (step == Building(InitBuilt(false)) && s.init.IBuilding?)
    || (step == Building(InitCopy(false)) && s.init.IBuilt?)
  }

  /** After a failed step of an init the live database is as it was, and in no run from there is
      another touch of the trigger file served or the database replaced. */
  lemma FailedInitIsFinal(s: State, step: InitStep, steps: seq<Step>)
    requires Exclusive(s) && FailsInit(s, step)
    ensures var u := Run(Next(s, ByInit(step)), steps);
            u.trig.served == s.trig.served && u.files.live == s.files.live
  {
    hide Next, Exclusive, InitHealthy, FailsInit;
    var f := Next(s, ByInit(step));
    ExclusiveStep(s, ByInit(step));
    FailureChangesNothing(s, step);
    UnhealthyNeverServes(f, steps);
    UnhealthyKeepsDatabase(f, steps);
  }

  lemma FailureChangesNothing(s: State, step: InitStep)
    requires FailsInit(s, step)
    ensures var f := Next(s, ByInit(step));
            !InitHealthy(f.init) && f.trig.served == s.trig.served && f.files.live == s.files.live
  {
    hide EnterNext, BuildNext;
    match step
    case Entering(a) => FailureInEntering(s, a);
    case Building(a) => FailureInBuilding(s, a);
  }

  lemma FailureInEntering(s: State, step: EnterStep)
    requires FailsInit(s, Entering(step))
    ensures EnterNext(s, step) == s.(init := IReport(false))
  {
    hide Consume;
  }

  lemma FailureInBuilding(s: State, step: BuildStep)
    requires FailsInit(s, Building(step))
    ensures BuildNext(s, step) == s.(init := IReport(true))
  {
    hide Serve, Tick;
  }

  lemma {:induction false} UnhealthyKeepsDatabase(s: State, steps: seq<Step>)
    requires !InitHealthy(s.init)
    ensures Run(s, steps).files.live == s.files.live
    decreases |steps|
  {
    if steps != [] {
      assert !InstallsDatabase(s, steps[0]);
      hide Next, InitHealthy;
      UnhealthyStep(s, steps[0]);
      InstallStep(s, steps[0]);
      UnhealthyKeepsDatabase(Next(s, steps[0]), steps[1..]);
    }
  }

  /** The collector has failed to read a log, or has ended. */
  predicate CollectFailing(pc: CollectPc)
  {
    pc == CReport(true) || pc == CErr(true) || pc == CDone(true) || pc.CStopped?
  }

  lemma CollectFailingStep(s: State, step: Step)
    requires CollectFailing(s.collect)
    ensures CollectFailing(Next(s, step).collect) && Next(s, step).collect != CUpload
  {
    hide ScanNext, InitNext;
    match step
    case ByScan(a) => ScanLeavesCollector(s, a);
    case ByInit(a) => InitKeeps(s, a);
    case ByCollector(_) =>
    case ByOther(_) =>
  }

  /** After that no run uploads a log or takes another result. */
  lemma {:induction false} FailedReadEndsCollector(s: State, steps: seq<Step>)
    requires CollectFailing(s.collect)
    ensures CollectFailing(Run(s, steps).collect)
    decreases |steps|
  {
    hide Next, CollectFailing;
    if steps != [] {
      CollectFailingStep(s, steps[0]);
      FailedReadEndsCollector(Next(s, steps[0]), steps[1..]);
    }
  }

  /** The scan loop has failed to copy its report, or has ended. */
  predicate ScanFailing(pc: ScanPc)
  {
    pc.SReport? || pc.SErr? || pc.SErrUnlock? || pc.SStopped?
  }

  lemma ScanFailingStep(s: State, step: Step)
    requires ScanFailing(s.scan)
    ensures ScanFailing(Next(s, step).scan) && !TakesLock(s, step)
  {
    hide InitNext, CollectNext;
    match step
    case ByScan(_) =>
    case ByInit(a) => InitKeeps(s, a);
    case ByCollector(a) => CollectKeepsScan(s, a);
    case ByOther(_) =>
  }

  /** After a copy that fails there is no further scan. */
  lemma {:induction false} NoScanAfterFailure(s: State, steps: seq<Step>)
    requires ScanFailing(s.scan)
    ensures ScanLocks(s, steps) == 0 && ScanFailing(Run(s, steps).scan)
    decreases |steps|
  {
    hide Next, ScanFailing, TakesLock;
    if steps != [] {
      ScanFailingStep(s, steps[0]);
      NoScanAfterFailure(Next(s, steps[0]), steps[1..]);
    }
  }

  lemma FailedCopyEndsScan(s: State, steps: seq<Step>)
    requires s.scan.SRan?
    ensures var u := Next(s, ByScan(ScanCopy(false)));
            ScanLocks(u, steps) == 0 && u.files == s.files && u.queue == s.queue
  {
    NoScanAfterFailure(Next(s, ByScan(ScanCopy(false))), steps);
  }
}
