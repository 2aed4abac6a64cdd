/** The node daemon (cmd/manager/loops.go, logcollector.go, daemon.go).

    The scan loop, the re-init loop and the log collector run as interleaved steps
    over the state they share: the file lock, the `initializing` and `holding`
    flags, the 50-slot result channel and the re-init trigger file. A step that is
    not possible in a state leaves it unchanged. Touches of the trigger file and
    starts of `aide -i` are stamped with a logical clock. */
module Daemon {
  import opened Text

  datatype Worker = Scan | Init | Collector

  /** aideLoop */
  datatype ScanPc =
    | SIdle | SNotInitializing | SWantLock
    | SLocked | SRan(code: int) | SCopied(code: int) | SSent
    | SReport | SErr | SErrUnlock
    | SStopped

  /** reinitLoop and handleAIDEInit; in the error states `locked` tells whether the lock is held */
  datatype InitPc =
    | IIdle | IStatDb(missing: bool) | IEnter
    | IFlagged | IRemoving(seen: bool) | IWantLock
    | ILocked | IBacked | IBuilding(start: nat, tries: nat) | IBuilt(start: nat) | ICopied
    | IUnlocked
    | IReport(locked: bool) | IErr(locked: bool) | ILeave(locked: bool)
    | IStopped(failed: bool)

  /** logCollectorMainLoop and handleFailedResult; `stop` tells whether the loop ends */
  datatype CollectPc =
    | CIdle | CGot(code: int) | CTell | CWantLock
    | CLocked | CUpload | CReport(stop: bool) | CErr(stop: bool) | CDone(stop: bool)
    | CStopped

  /** What becomes of a log that is there: read, not readable, or not even opened. */
  datatype Read = ReadOk | ReadFails | OpenFails

  /** The AIDE files: build start of the databases, number of backups, and contents of the logs,
      0 for a log that is missing or empty. */
  datatype Files = Files(live: Option<nat>, newDb: Option<nat>, backups: nat, newLog: nat, log: nat)

  /** The trigger file and what became of each touch of it. */
  datatype Trigger = Trigger(
    present: bool,        // the trigger file exists
    clock: nat,
    touches: set<nat>,    // all touches
    pending: set<nat>,    // those the present file stands for
    consumed: set<nat>,   // those whose file the init in progress removed
    served: map<nat, nat> // those a completed init served, with the start of its `aide -i`
  )

  datatype State = State(
    lock: Option<Worker>,
    initializing: bool,
    holding: bool,
    queue: seq<int>,
    instance: bool,       // the FileIntegrity instance has been set
    cancelled: bool,
    listening: bool,      // the main routine still receives errors
    scan: ScanPc,
    init: InitPc,
    collect: CollectPc,
    files: Files,
    trig: Trigger
  )

  const CAPACITY := 50
  const MAX_RETRIES := 5

  datatype ScanStep =
    | ScanCheckInit | ScanCheckHold | ScanLock | ScanRun(code: int, report: nat) | ScanCopy(ok: bool)
    | ScanSend | ScanUnlock | ScanReport | ScanErr | ScanErrUnlock | ScanCancel

  datatype InitStep =
    | Polling(poll: PollStep) | Entering(enter: EnterStep) | Building(build: BuildStep) | Failing(fail: FailStep)

  datatype PollStep = InitStatDb | InitStatTrigger | InitCancel

  datatype EnterStep = InitFlag | InitRemoveStat(ok: bool) | InitRemove(ok: bool) | InitLock

  datatype BuildStep =
    | InitBackup(ok: bool) | InitBuild | InitRetry | InitBuilt(ok: bool) | InitCopy(ok: bool) | InitUnlock | InitClear

  datatype FailStep = InitReport | InitErr | InitErrUnlock | InitErrClear

  datatype CollectStep =
    | CollectReceive | CollectDispatch | CollectTell | CollectLock | CollectRead(outcome: Read)
    | CollectUpload(ok: bool) | CollectReport | CollectErr | CollectUnlock | CollectCancel

  /** The re-init DaemonSet touching the file, the instance watcher, the hold-off loop, a
      termination signal, and the main routine waiting for the loops to end. */
  datatype OtherStep = Touch | Instance | Hold(holding: bool) | Terminate | MainWaits

  datatype Step =
    | ByScan(scan: ScanStep)
    | ByInit(init: InitStep)
    | ByCollector(collect: CollectStep)
    | ByOther(other: OtherStep)

  function Owner(step: Step): Option<Worker>
  {
    match step
    case ByScan(_) => Some(Scan)
    case ByInit(_) => Some(Init)
    case ByCollector(_) => Some(Collector)
    case ByOther(_) => None
  }

  // ---------- the scan loop ----------

  /** Without a database aide ends with an I/O error. */
  function ExitCode(live: Option<nat>, code: int): int
  {
    if live.None? then 18 else code
  }

  /** updateAideLogFileIfPresent: a missing or empty new log leaves the log as it is. */
  function LogCopied(files: Files): Files
  {
    if files.newLog == 0 then files else files.(log := files.newLog)
  }

  function ScanNext(s: State, step: ScanStep): State
  {
    match step
    case ScanCheckInit => if s.scan.SIdle? && !s.initializing then s.(scan := SNotInitializing) else s
    case ScanCheckHold => if s.scan.SNotInitializing? then s.(scan := if s.holding then SIdle else SWantLock) else s
    case ScanLock => if s.scan.SWantLock? && s.lock.None? then s.(lock := Some(Scan), scan := SLocked) else s
    case ScanRun(code, report) =>
      if s.scan.SLocked?
      then s.(files := s.files.(newLog := report), scan := SRan(ExitCode(s.files.live, code))) else s
    case ScanCopy(ok) =>
      if !s.scan.SRan? then s
      else if ok then s.(files := LogCopied(s.files), scan := SCopied(s.scan.code))
      else s.(scan := SReport)
    case ScanSend =>
      if s.scan.SCopied? && |s.queue| < CAPACITY then s.(queue := s.queue + [s.scan.code], scan := SSent) else s
    case ScanUnlock => if s.scan.SSent? then s.(lock := None, scan := SIdle) else s
    case ScanReport => if s.scan.SReport? && s.instance then s.(scan := SErr) else s
    case ScanErr => if s.scan.SErr? && s.listening then s.(scan := SErrUnlock, cancelled := true) else s
    case ScanErrUnlock => if s.scan.SErrUnlock? then s.(lock := None, scan := SStopped) else s
    case ScanCancel => if s.scan.SIdle? && s.cancelled then s.(scan := SStopped) else s
  }

  // ---------- the re-init loop ----------

  /** Removing the trigger file: the init in progress now answers for its touches. */
  function Consume(t: Trigger): Trigger
  {
    t.(present := false, pending := {}, consumed := t.consumed + t.pending)
  }

  /** Completing an init whose `aide -i` started at `start`. */
  function Serve(t: Trigger, start: nat): Trigger
  {
    t.(consumed := {}, served := t.served + map x | x in t.consumed :: start)
  }

  function Tick(t: Trigger): Trigger
  {
    t.(clock := t.clock + 1)
  }

  function PollNext(s: State, step: PollStep): State
  {
    match step
    case InitStatDb => if s.init.IIdle? then s.(init := IStatDb(s.files.live.None?)) else s
    case InitStatTrigger =>
      if s.init.IStatDb? then s.(init := if s.init.missing || s.trig.present then IEnter else IIdle) else s
    case InitCancel => if s.init.IIdle? && s.cancelled then s.(init := IStopped(false)) else s
  }

  function EnterNext(s: State, step: EnterStep): State
  {
    match step
    case InitFlag => if s.init.IEnter? then s.(initializing := true, init := IFlagged) else s
    case InitRemoveStat(ok) =>
      if s.init.IFlagged? then s.(init := if ok then IRemoving(s.trig.present) else IReport(false)) else s
    case InitRemove(ok) =>
      if !s.init.IRemoving? then s
      else if !s.init.seen then s.(init := IWantLock)
      else if ok then s.(trig := Consume(s.trig), init := IWantLock)
      else s.(init := IReport(false))
    case InitLock => if s.init.IWantLock? && s.lock.None? then s.(lock := Some(Init), init := ILocked) else s
  }

  function BuildNext(s: State, step: BuildStep): State
  {
    match step
    case InitBackup(ok) =>
      if !s.init.ILocked? then s
      else if ok then s.(files := s.files.(backups := s.files.backups + 1), init := IBacked)
      else s.(init := IReport(true))
    case InitBuild => if s.init.IBacked? then s.(init := IBuilding(s.trig.clock, 0), trig := Tick(s.trig)) else s
    case InitRetry =>
      if s.init.IBuilding? && s.init.tries < MAX_RETRIES
      then s.(init := IBuilding(s.trig.clock, s.init.tries + 1), trig := Tick(s.trig)) else s
    case InitBuilt(ok) =>
      if !s.init.IBuilding? then s
      else if ok then s.(files := s.files.(newDb := Some(s.init.start)), init := IBuilt(s.init.start))
      else s.(init := IReport(true))
    case InitCopy(ok) =>
      if !s.init.IBuilt? then s
      else if ok then s.(files := s.files.(live := s.files.newDb), trig := Serve(s.trig, s.init.start), init := ICopied)
      else s.(init := IReport(true))
    case InitUnlock => if s.init.ICopied? then s.(lock := None, init := IUnlocked) else s
    case InitClear => if s.init.IUnlocked? then s.(initializing := false, init := IIdle) else s
  }

  function FailNext(s: State, step: FailStep): State
  {
    match step
    case InitReport => if s.init.IReport? && s.instance then s.(init := IErr(s.init.locked)) else s
    case InitErr => if s.init.IErr? && s.listening then s.(init := ILeave(s.init.locked), cancelled := true) else s
    case InitErrUnlock => if s.init.ILeave? && s.init.locked then s.(lock := None, init := ILeave(false)) else s
    case InitErrClear =>
      if s.init.ILeave? && !s.init.locked then s.(initializing := false, init := IStopped(true)) else s
  }

  function InitNext(s: State, step: InitStep): State
  {
    match step
    case Polling(a) => PollNext(s, a)
    case Entering(a) => EnterNext(s, a)
    case Building(a) => BuildNext(s, a)
    case Failing(a) => FailNext(s, a)
  }

  // ---------- the log collector ----------

  /** What the collector does with a result: ignore it, report it without the log, or upload the log. */
  function Dispatch(code: int): CollectPc
  {
    if code == -1 || code == 18 then CIdle else if code == 17 || code == 0 then CTell else CWantLock
  }

  /** handleFailedResult up to the upload: with no log to open the collector ends, reporting nothing. */
  function AfterRead(log: nat, outcome: Read): CollectPc
  {
    if log == 0 || outcome.OpenFails? then CDone(true) else if outcome.ReadOk? then CUpload else CReport(true)
  }

  function CollectNext(s: State, step: CollectStep): State
  {
    match step
    case CollectReceive =>
      if s.collect.CIdle? && s.queue != [] then s.(collect := CGot(s.queue[0]), queue := s.queue[1..]) else s
    case CollectDispatch => if s.collect.CGot? then s.(collect := Dispatch(s.collect.code)) else s
    case CollectTell => if s.collect.CTell? && s.instance then s.(collect := CIdle) else s
    case CollectLock =>
      if s.collect.CWantLock? && s.lock.None? then s.(lock := Some(Collector), collect := CLocked) else s
    case CollectRead(outcome) => if s.collect.CLocked? then s.(collect := AfterRead(s.files.log, outcome)) else s
    case CollectUpload(ok) =>
      if s.collect.CUpload? && s.instance then s.(collect := if ok then CDone(false) else CReport(false)) else s
    case CollectReport => if s.collect.CReport? && s.instance then s.(collect := CErr(s.collect.stop)) else s
    case CollectErr =>
      if s.collect.CErr? && s.listening then s.(collect := CDone(s.collect.stop), cancelled := true) else s
    case CollectUnlock =>
      if s.collect.CDone? then s.(lock := None, collect := if s.collect.stop then CStopped else CIdle) else s
    case CollectCancel => if s.collect.CIdle? && s.cancelled then s.(collect := CStopped) else s
  }

  // ---------- everybody else ----------

  function Touched(t: Trigger): Trigger
  {
    t.(present := true, clock := t.clock + 1, touches := t.touches + {t.clock}, pending := t.pending + {t.clock})
  }

  function OtherNext(s: State, step: OtherStep): State
  {
    match step
    case Touch => s.(trig := Touched(s.trig))
    case Instance => s.(instance := true)
    case Hold(holding) => if s.instance then s.(holding := holding) else s
    case Terminate => if s.listening then s.(cancelled := true) else s
    case MainWaits => if s.cancelled then s.(listening := false) else s
  }

  function Next(s: State, step: Step): State
  {
    match step
    case ByScan(a) => ScanNext(s, a)
    case ByInit(a) => InitNext(s, a)
    case ByCollector(a) => CollectNext(s, a)
    case ByOther(a) => OtherNext(s, a)
  }

  function Run(s: State, steps: seq<Step>): State
    decreases |steps|
  {
    if steps == [] then s else Run(Next(s, steps[0]), steps[1..])
  }

  /** setInitialRuntimeState, on a node that may already have a database. */
  predicate Initial(s: State)
  {
    && s.lock.None? && !s.initializing && s.queue == [] && !s.cancelled && s.listening
    && s.scan.SIdle? && s.init.IIdle? && s.collect.CIdle?
    && s.trig == Trigger(false, s.trig.clock, {}, {}, {}, map[])
    && (s.files.live.Some? ==> s.files.live.value < s.trig.clock)
  }

  // ---------- the file lock and the initializing flag ----------

  /** Between locking and unlocking the files. */
  predicate ScanCritical(pc: ScanPc)
  {
    pc.SLocked? || pc.SRan? || pc.SCopied? || pc.SSent? || pc.SReport? || pc.SErr? || pc.SErrUnlock?
  }

  predicate InitCritical(pc: InitPc)
  {
    pc.ILocked? || pc.IBacked? || pc.IBuilding? || pc.IBuilt? || pc.ICopied? ||
    ((pc.IReport? || pc.IErr? || pc.ILeave?) && pc.locked)
  }

  predicate CollectCritical(pc: CollectPc)
  {
    pc.CLocked? || pc.CUpload? || pc.CReport? || pc.CErr? || pc.CDone?
  }

  predicate InCritical(s: State, w: Worker)
  {
    match w
    case Scan => ScanCritical(s.scan)
    case Init => InitCritical(s.init)
    case Collector => CollectCritical(s.collect)
  }

  /** The re-init loop is inside handleAIDEInit, past its first statement. */
  predicate InHandleInit(pc: InitPc)
  {
    !pc.IIdle? && !pc.IStatDb? && !pc.IEnter? && !pc.IStopped?
  }

  /** A worker is in its critical section exactly when it holds the lock, and the flag is
      set exactly inside handleAIDEInit. */
  predicate Exclusive(s: State)
  {
    && (ScanCritical(s.scan) <==> s.lock == Some(Scan))
    && (InitCritical(s.init) <==> s.lock == Some(Init))
    && (CollectCritical(s.collect) <==> s.lock == Some(Collector))
    && (s.initializing <==> InHandleInit(s.init))
    && |s.queue| <= CAPACITY
    && (!s.cancelled ==> s.listening)
  }

  lemma ExclusiveStep(s: State, step: Step)
    requires Exclusive(s)
    ensures Exclusive(Next(s, step))
  {
    hide ScanNext, InitNext, CollectNext, OtherNext;
    match step
    case ByScan(a) => ExclusiveScan(s, a);
    case ByInit(a) => ExclusiveInit(s, a);
    case ByCollector(a) => ExclusiveCollect(s, a);
    case ByOther(a) => ExclusiveOther(s, a);
  }

  lemma ExclusiveOther(s: State, step: OtherStep)
    requires Exclusive(s)
    ensures Exclusive(OtherNext(s, step))
  {
    hide Touched;
    match step
    case Touch =>
    case Instance =>
    case Hold(_) =>
    case Terminate =>
    case MainWaits =>
  }

  // Below, the cases of a match that need no argument are listed so that each step is checked on its own.

  lemma ExclusiveScan(s: State, step: ScanStep)
    requires Exclusive(s)
    ensures Exclusive(ScanNext(s, step))
  {
    match step
    case ScanLock =>
    case ScanRun(_, _) =>
    case ScanCopy(_) =>
    case ScanSend =>
    case ScanErr =>
    case _ =>
  }

  lemma ExclusiveInit(s: State, step: InitStep)
    requires Exclusive(s)
    ensures Exclusive(InitNext(s, step))
  {
    hide PollNext, EnterNext, BuildNext, FailNext;
    match step
    case Polling(a) => PollFrame(s, a);
    case Entering(a) => ExclusiveEnter(s, a);
    case Building(a) => ExclusiveBuild(s, a);
    case Failing(a) => ExclusiveFail(s, a);
  }

  /** Polling moves the re-init loop about outside handleAIDEInit and does nothing else. */
  lemma PollFrame(s: State, step: PollStep)
    ensures var u := PollNext(s, step);
            u == s || (u == s.(init := u.init) && OutsideInit(s.init) && OutsideInit(u.init))
  {
  }

  predicate OutsideInit(pc: InitPc)
  {
    pc.IIdle? || pc.IStatDb? || pc.IEnter? || pc == IStopped(false)
  }

  lemma ExclusiveFail(s: State, step: FailStep)
    requires Exclusive(s)
    ensures Exclusive(FailNext(s, step))
  {
    match step
    case InitReport =>
    case InitErr =>
    case InitErrUnlock =>
    case InitErrClear =>
  }

  /** Removing the trigger file, or failing to, touches nothing else. */
  lemma RemoveFrame(s: State, ok: bool)
    ensures var u := EnterNext(s, InitRemove(ok));
            && u == s.(init := u.init, trig := u.trig) && u.trig.served == s.trig.served
            && (u != s ==> s.init.IRemoving? && (u.init.IWantLock? || u.init == IReport(false)))
  {
  }

  lemma ExclusiveEnter(s: State, step: EnterStep)
    requires Exclusive(s)
    ensures Exclusive(EnterNext(s, step))
  {
    match step
    case InitFlag =>
    case InitRemoveStat(_) =>
    case InitRemove(ok) => RemoveFrame(s, ok);
    case InitLock =>
  }

  lemma ExclusiveBuild(s: State, step: BuildStep)
    requires Exclusive(s)
    ensures Exclusive(BuildNext(s, step))
  {
    match step
    case InitBackup(_) =>
    case InitBuild =>
    case InitRetry =>
    case InitBuilt(_) =>
    case InitCopy(_) =>
    case _ =>
  }

  lemma ExclusiveCollect(s: State, step: CollectStep)
    requires Exclusive(s)
    ensures Exclusive(CollectNext(s, step))
  {
    match step
    case CollectReceive =>
    case CollectLock =>
    case CollectRead(_) =>
    case CollectUpload(_) =>
    case CollectUnlock =>
    case _ =>
  }

  /** Database and log files change only in a step of the worker that holds the lock, inside its
      critical section. */
  lemma FilesChangeUnderLock(s: State, step: Step)
    requires Exclusive(s) && Next(s, step).files != s.files
    ensures Owner(step).Some? && s.lock == Owner(step) && InCritical(s, Owner(step).value)
  {
    hide ScanNext, PollNext, EnterNext, BuildNext, CollectNext;
    match step
    case ByScan(a) => ScanFiles(s, a);
    case ByInit(Polling(a)) => PollFrame(s, a);
    case ByInit(Entering(a)) => EnterFiles(s, a);
    case ByInit(Building(a)) => BuildFiles(s, a);
    case ByInit(Failing(_)) =>
    case ByCollector(a) => CollectFrame(s, a);
    case ByOther(_) =>
  }

  lemma ScanFiles(s: State, step: ScanStep)
    requires ScanNext(s, step).files != s.files
    ensures ScanCritical(s.scan)
  {
    match step
    case ScanRun(_, _) =>
    case ScanCopy(_) =>
    case _ =>
  }

  lemma EnterFiles(s: State, step: EnterStep)
    ensures EnterNext(s, step).files == s.files
  {
    match step
    case InitRemove(_) =>
    case InitLock =>
    case _ =>
  }

  lemma BuildFiles(s: State, step: BuildStep)
    requires BuildNext(s, step).files != s.files
    ensures InitCritical(s.init)
  {
    match step
    case InitBackup(_) =>
    case InitBuilt(_) =>
    case InitCopy(_) =>
    case _ =>
  }

  // ---------- triggers ----------

  /** The init has removed the trigger file and not yet finished, or has ended with an error. */
  predicate Carrying(pc: InitPc)
  {
    pc.IWantLock? || pc.ILocked? || pc.IBacked? || pc.IBuilding? || pc.IBuilt? ||
    pc.IReport? || pc.IErr? || pc.ILeave? || (pc.IStopped? && pc.failed)
  }

  /** Every touch is pending, carried by an init, or served by an `aide -i` that started
      after it; and the live database is at least as new as every one that served a touch. */
  ghost predicate TouchesKept(t: Trigger, live: Option<nat>)
  {
    && t.touches == t.pending + t.consumed + t.served.Keys
    && (t.present <==> t.pending != {})
    && (forall x | x in t.touches :: x < t.clock)
    && (live.Some? ==> live.value < t.clock)
    && (forall x | x in t.served :: x < t.served[x] && live.Some? && t.served[x] <= live.value)
  }

  /** What the init in progress knows: its `aide -i` started after every touch it consumed
      and after the one the live database comes from. */
  ghost predicate BuildIsNewer(pc: InitPc, t: Trigger, files: Files)
  {
    && (t.consumed != {} ==> Carrying(pc))
    && (pc.IBuilding? || pc.IBuilt? ==>
          && pc.start < t.clock
          && (forall x | x in t.consumed :: x < pc.start)
          && (files.live.Some? ==> files.live.value < pc.start))
    && (pc.IBuilt? ==> files.newDb == Some(pc.start))
  }

  ghost predicate Triggers(s: State)
  {
    TouchesKept(s.trig, s.files.live) && BuildIsNewer(s.init, s.trig, s.files)
  }

  lemma ConsumeKeeps(t: Trigger, live: Option<nat>)
    requires TouchesKept(t, live)
    ensures TouchesKept(Consume(t), live)
  {
  }

  lemma TouchKeeps(t: Trigger, live: Option<nat>)
    requires TouchesKept(t, live)
    ensures TouchesKept(Touched(t), live) && TouchesKept(Tick(t), live)
  {
    assert t.clock in Touched(t).pending;
  }

  lemma ServeKeeps(t: Trigger, files: Files, start: nat)
    requires TouchesKept(t, files.live) && BuildIsNewer(IBuilt(start), t, files)
    ensures TouchesKept(Serve(t, start), files.newDb)
  {
    assert Serve(t, start).served.Keys == t.served.Keys + t.consumed;
  }

  lemma TouchesArePast(t: Trigger, live: Option<nat>)
    requires TouchesKept(t, live)
    ensures forall x | x in t.consumed || x in t.pending :: x < t.clock
    ensures live.Some? ==> live.value < t.clock
    ensures !t.present ==> t.pending == {}
  {
    assert forall x | x in t.consumed || x in t.pending :: x in t.touches;
  }

  lemma TriggersPoll(s: State, step: PollStep)
    requires Triggers(s)
    ensures Triggers(PollNext(s, step))
  {
    hide TouchesKept;
  }

  lemma TriggersEnter(s: State, step: EnterStep)
    requires Triggers(s)
    ensures Triggers(EnterNext(s, step))
  {
    hide TouchesKept;
    match step
    case InitFlag =>
    case InitRemoveStat(_) =>
    case InitRemove(_) => ConsumeKeeps(s.trig, s.files.live);
    case InitLock =>
  }

  /** Starting `aide -i`, once more or for the first time. */
  lemma TriggersBegin(s: State, step: BuildStep)
    requires Triggers(s) && (step.InitBuild? || step.InitRetry?)
    ensures Triggers(BuildNext(s, step))
  {
    hide TouchesKept;
    TouchesArePast(s.trig, s.files.live);
    TouchKeeps(s.trig, s.files.live);
  }

  lemma TriggersBuild(s: State, step: BuildStep)
    requires Triggers(s)
    ensures Triggers(BuildNext(s, step))
  {
    hide TouchesKept;
    match step
    case InitBuild | InitRetry => TriggersBegin(s, step);
    case InitBackup(_) =>
    case InitBuilt(_) =>
    case InitCopy(ok) =>
      if s.init.IBuilt? {
        ServeKeeps(s.trig, s.files, s.init.start);
      }
    case _ =>
  }

  lemma TriggersFail(s: State, step: FailStep)
    requires Triggers(s)
    ensures Triggers(FailNext(s, step))
  {
  }

  /** The other workers change neither the trigger file nor either database. */
  lemma ScanFrame(s: State, step: ScanStep)
    ensures var u := ScanNext(s, step);
            u.trig == s.trig && u.init == s.init && u.files.live == s.files.live && u.files.newDb == s.files.newDb
  {
    match step
    case ScanLock =>
    case ScanRun(_, _) =>
    case ScanCopy(_) =>
    case ScanSend =>
    case ScanErr =>
    case _ =>
  }

  lemma CollectFrame(s: State, step: CollectStep)
    ensures var u := CollectNext(s, step); u.trig == s.trig && u.init == s.init && u.files == s.files
  {
    match step
    case CollectReceive =>
    case CollectLock =>
    case CollectRead(_) =>
    case CollectUpload(_) =>
    case CollectUnlock =>
    case _ =>
  }

  lemma TriggersOther(s: State, step: OtherStep)
    requires Triggers(s)
    ensures Triggers(OtherNext(s, step))
  {
    hide TouchesKept;
    match step
    case Touch => TouchKeeps(s.trig, s.files.live);
    case _ =>
  }

  lemma TriggersStep(s: State, step: Step)
    requires Triggers(s)
    ensures Triggers(Next(s, step))
  {
    match step
    case ByScan(a) =>
      hide TouchesKept;
      ScanFrame(s, a);
    case ByInit(Polling(a)) => TriggersPoll(s, a);
    case ByInit(Entering(a)) => TriggersEnter(s, a);
    case ByInit(Building(a)) => TriggersBuild(s, a);
    case ByInit(Failing(a)) => TriggersFail(s, a);
    case ByCollector(a) =>
      hide TouchesKept;
      CollectFrame(s, a);
    case ByOther(a) => TriggersOther(s, a);
  }

  lemma {:induction false} RunInvariant(s: State, steps: seq<Step>)
    requires Exclusive(s) && Triggers(s)
    ensures Exclusive(Run(s, steps)) && Triggers(Run(s, steps))
    decreases |steps|
  {
    hide Next, Exclusive, Triggers;
    if steps != [] {
      ExclusiveStep(s, steps[0]);
      TriggersStep(s, steps[0]);
      RunInvariant(Next(s, steps[0]), steps[1..]);
    }
  }

  /** In every state of every interleaving, at most one of scan, init and log upload is in its
      file-critical section, init has the flag set while it holds the lock, and the flag is
      clear whenever the re-init loop is outside handleAIDEInit. */
  lemma MutualExclusion(s: State, steps: seq<Step>, a: Worker, b: Worker)
    requires Initial(s)
    ensures var u := Run(s, steps);
            && (InCritical(u, a) && InCritical(u, b) ==> a == b)
            && (u.lock == Some(Init) ==> u.initializing)
            && (!InHandleInit(u.init) ==> !u.initializing)
  {
    RunInvariant(s, steps);
  }

  /** In every state of every interleaving, each touch of the trigger file is still pending with
      the file in place, or is carried by an init (which may have ended with an error), or was
      served by an `aide -i` that started after the touch; and then the live database comes
      from that run of aide or a later one. Touches made during another init are included. */
  lemma EveryTouchAccountedFor(s: State, steps: seq<Step>, t: nat)
    requires Initial(s) && t in Run(s, steps).trig.touches
    ensures var u := Run(s, steps);
            || (t in u.trig.pending && u.trig.present)
            || (t in u.trig.consumed && Carrying(u.init))
            || (t in u.trig.served && t < u.trig.served[t] &&
                u.files.live.Some? && u.trig.served[t] <= u.files.live.value)
  {
    RunInvariant(s, steps);
  }

  // ---------- progress of the lock holder ----------

  /** A step the lock holder can take by itself. */
  function HolderStep(s: State): Step
    requires s.lock.Some?
  {
    match s.lock.value
    case Scan =>
      ByScan(match s.scan
             case SLocked => ScanRun(0, 0)
             case SRan(_) => ScanCopy(true)
             case SCopied(_) => ScanSend
             case SReport => ScanReport
             case SErr => ScanErr
             case SErrUnlock => ScanErrUnlock
             case _ => ScanUnlock)
    case Init =>
      ByInit(match s.init
             case ILocked => Building(InitBackup(true))
             case IBacked => Building(InitBuild)
             case IBuilding(_, _) => Building(InitBuilt(true))
             case IBuilt(_) => Building(InitCopy(true))
             case IReport(_) => Failing(InitReport)
             case IErr(_) => Failing(InitErr)
             case ILeave(_) => Failing(InitErrUnlock)
             case _ => Building(InitUnlock))
    case Collector =>
      ByCollector(match s.collect
                  case CLocked => CollectRead(ReadOk)
                  case CUpload => CollectUpload(true)
                  case CReport(_) => CollectReport
                  case CErr(_) => CollectErr
                  case _ => CollectUnlock)
  }

  function ScanRank(pc: ScanPc): nat
  {
    match pc
    case SLocked => 6
    case SRan(_) => 5
    case SReport => 4
    case SErr => 3
    case SCopied(_) => 2
    case _ => 1
  }

  function InitRank(pc: InitPc): nat
  {
    match pc
    case ILocked => 14
    case IBacked => 13
    case IBuilding(_, tries) => if tries < MAX_RETRIES then 7 + MAX_RETRIES - tries else 7
    case IBuilt(_) => 5
    case IReport(_) => 4
    case IErr(_) => 3
    case ILeave(_) => 2
    case _ => 1
  }

  function CollectRank(pc: CollectPc): nat
  {
    match pc
    case CLocked => 6
    case CUpload => 5
    case CReport(_) => 4
    case CErr(_) => 3
    case _ => 1
  }

  /** How many own steps the lock holder is at most away from unlocking. */
  function Rank(s: State): nat
  {
    match s.lock
    case None => 0
    case Some(Scan) => ScanRank(s.scan)
    case Some(Init) => InitRank(s.init)
    case Some(Collector) => CollectRank(s.collect)
  }

  /** With a free slot in the result channel and the instance set, before cancellation, the lock
      holder has a step of its own that needs no other worker. */
  lemma HolderCanStep(s: State)
    requires Exclusive(s) && s.lock.Some?
    requires |s.queue| < CAPACITY && s.instance && !s.cancelled
    ensures Owner(HolderStep(s)) == s.lock && Next(s, HolderStep(s)) != s
  {
  }

  lemma ScanAdvances(s: State, step: ScanStep)
    requires s.lock == Some(Scan) && ScanCritical(s.scan)
    ensures var u := ScanNext(s, step);
            u == s || u.lock.None? || (u.lock == s.lock && ScanRank(u.scan) < ScanRank(s.scan))
  {
    match step
    case ScanLock =>
    case ScanRun(_, _) =>
    case ScanCopy(_) =>
    case ScanSend =>
    case ScanErr =>
    case _ =>
  }

  lemma InitAdvances(s: State, step: InitStep)
    requires s.lock == Some(Init) && InitCritical(s.init)
    ensures var u := InitNext(s, step);
            u == s || u.lock.None? || (u.lock == s.lock && InitRank(u.init) < InitRank(s.init))
  {
    match step
    case Polling(a) => assert PollNext(s, a) == s;
    case Entering(a) => assert EnterNext(s, a) == s;
    case Building(a) => BuildAdvances(s, a);
    case Failing(_) =>
  }

  lemma BuildAdvances(s: State, step: BuildStep)
    requires s.lock == Some(Init) && InitCritical(s.init)
    ensures var u := BuildNext(s, step);
            u == s || u.lock.None? || (u.lock == s.lock && InitRank(u.init) < InitRank(s.init))
  {
    hide Serve, Tick;
    match step
    case InitBackup(_) =>
    case InitBuild =>
    case InitRetry =>
    case InitBuilt(_) =>
    case InitCopy(_) =>
    case _ =>
  }

  lemma CollectAdvances(s: State, step: CollectStep)
    requires s.lock == Some(Collector) && CollectCritical(s.collect)
    ensures var u := CollectNext(s, step);
            u == s || u.lock.None? || (u.lock == s.lock && CollectRank(u.collect) < CollectRank(s.collect))
  {
    match step
    case CollectReceive =>
    case CollectRead(_) =>
    case CollectUpload(_) =>
    case CollectErr =>
    case _ =>
  }

  /** Each step the holder takes releases the lock or brings it closer to that. */
  lemma HolderAdvances(s: State, step: Step)
    requires Exclusive(s) && s.lock.Some? && Owner(step) == s.lock
    ensures var u := Next(s, step); u == s || u.lock.None? || (u.lock == s.lock && Rank(u) < Rank(s))
  {
    hide ScanNext, InitNext, CollectNext;
    match step
    case ByScan(a) => ScanAdvances(s, a);
    case ByInit(a) => InitAdvances(s, a);
    case ByCollector(a) => CollectAdvances(s, a);
  }

  /** Nothing the holder relies on has changed: the lock, its channel, the instance and the files. */
  predicate Undisturbed(s: State, u: State)
  {
    && u.lock == s.lock && |u.queue| <= |s.queue| && (s.instance ==> u.instance)
    && u.files == s.files && u.trig.served == s.trig.served
  }

  /** While another worker holds the lock, a worker leaves it undisturbed. */
  lemma ScanYields(s: State, step: ScanStep)
    requires s.lock.Some? && !ScanCritical(s.scan)
    ensures var u := ScanNext(s, step); Undisturbed(s, u) && u.init == s.init && u.collect == s.collect
  {
    match step
    case ScanLock =>
    case ScanRun(_, _) =>
    case ScanCopy(_) =>
    case ScanSend =>
    case _ =>
  }

  lemma EnterYields(s: State, step: EnterStep)
    requires s.lock.Some?
    ensures var u := EnterNext(s, step);
            Undisturbed(s, u) && u.scan == s.scan && u.collect == s.collect && u.queue == s.queue
  {
    match step
    case InitFlag =>
    case InitRemoveStat(_) =>
    case InitRemove(ok) => RemoveFrame(s, ok);
    case InitLock =>
  }

  lemma BuildYields(s: State, step: BuildStep)
    requires !InitCritical(s.init)
    ensures var u := BuildNext(s, step);
            Undisturbed(s, u) && u.scan == s.scan && u.collect == s.collect && u.queue == s.queue
  {
    match step
    case InitBackup(_) =>
    case InitBuild =>
    case InitRetry =>
    case InitBuilt(_) =>
    case InitCopy(_) =>
    case _ =>
  }

  lemma InitYields(s: State, step: InitStep)
    requires s.lock.Some? && !InitCritical(s.init)
    ensures var u := InitNext(s, step);
            Undisturbed(s, u) && u.scan == s.scan && u.collect == s.collect && u.queue == s.queue
  {
    hide PollNext, EnterNext, BuildNext;
    match step
    case Polling(a) => PollFrame(s, a);
    case Entering(a) => EnterYields(s, a);
    case Building(a) => BuildYields(s, a);
    case Failing(_) =>
  }

  lemma CollectYields(s: State, step: CollectStep)
    requires s.lock.Some? && !CollectCritical(s.collect)
    ensures var u := CollectNext(s, step); Undisturbed(s, u) && u.scan == s.scan && u.init == s.init
  {
    match step
    case CollectReceive =>
    case CollectLock =>
    case _ =>
  }

  /** No step of anybody else takes the lock away, delays the holder or fills the channel it needs. */
  lemma OthersDoNotDelay(s: State, step: Step)
    requires Exclusive(s) && s.lock.Some? && Owner(step) != s.lock
    ensures Undisturbed(s, Next(s, step)) && Rank(Next(s, step)) == Rank(s)
  {
    hide ScanNext, InitNext, CollectNext;
    match step
    case ByScan(a) => ScanYields(s, a);
    case ByInit(a) => InitYields(s, a);
    case ByCollector(a) => CollectYields(s, a);
    case ByOther(Touch) =>
    case ByOther(_) =>
  }

  /** How many steps of the run the worker takes itself. */
  function OwnMoves(s: State, steps: seq<Step>, w: Worker): nat
    decreases |steps|
  {
    if steps == [] then 0
    else
      var u := Next(s, steps[0]);
      (if Owner(steps[0]) == Some(w) && u != s then 1 else 0) + OwnMoves(u, steps[1..], w)
  }

  /** In every run in which the holder gets to take as many steps as its rank, it releases the
      lock, whatever the others do in between. */
  lemma {:induction false} LockIsReleased(s: State, steps: seq<Step>) returns (i: nat)
    requires Exclusive(s) && s.lock.Some? && OwnMoves(s, steps, s.lock.value) >= Rank(s)
    ensures i <= |steps| && Run(s, steps[..i]).lock.None?
    decreases |steps|
  {
    hide Next, Exclusive;
    var u := Next(s, steps[0]);
    ExclusiveStep(s, steps[0]);
    if Owner(steps[0]) != s.lock {
      OthersDoNotDelay(s, steps[0]);
    } else {
      HolderAdvances(s, steps[0]);
    }
    assert steps[..1][1..] == [] && Run(u, []) == u;
    if u.lock.None? {
      i := 1;
    } else {
      i := LockIsReleased(u, steps[1..]);
      assert steps[..i + 1][1..] == steps[1..][..i];
      i := i + 1;
    }
  }

  // ---------- wait cycles ----------

  predicate WantsLock(s: State, w: Worker)
  {
    match w
    case Scan => s.scan.SWantLock?
    case Init => s.init.IWantLock?
    case Collector => s.collect.CWantLock?
  }

  /** `a` cannot go on before `b` does something. */
  predicate WaitsFor(s: State, a: Worker, b: Worker)
  {
    || (WantsLock(s, a) && s.lock == Some(b))
    || (a == Scan && s.scan.SCopied? && |s.queue| >= CAPACITY && b == Collector)
  }

  ghost predicate WaitCycle(s: State, cycle: seq<Worker>)
  {
    cycle != [] && forall i | 0 <= i < |cycle| :: WaitsFor(s, cycle[i], cycle[if i + 1 < |cycle| then i + 1 else 0])
  }

  /** The scan holds the lock and waits for a slot while the collector waits for the lock. */
  predicate ScanCollectorDeadlock(s: State)
  {
    s.lock == Some(Scan) && s.scan.SCopied? && |s.queue| == CAPACITY && s.collect.CWantLock?
  }

  /** There is a wait cycle exactly when the result channel is full and the collector waits for
      the lock the sending scan holds. */
  lemma WaitCycleIff(s: State)
    requires Exclusive(s)
    ensures (exists cycle :: WaitCycle(s, cycle)) <==> ScanCollectorDeadlock(s)
  {
    if ScanCollectorDeadlock(s) {
      assert WaitCycle(s, [Scan, Collector]);
    }
    forall cycle | WaitCycle(s, cycle)
      ensures ScanCollectorDeadlock(s)
    {
      CycleIsDeadlock(s, cycle);
    }
  }

  lemma CycleIsDeadlock(s: State, cycle: seq<Worker>)
    requires Exclusive(s) && WaitCycle(s, cycle)
    ensures ScanCollectorDeadlock(s)
  {
    var i1 := if 1 < |cycle| then 1 else 0;
    var i2 := if i1 + 1 < |cycle| then i1 + 1 else 0;
    var i3 := if i2 + 1 < |cycle| then i2 + 1 else 0;
    assert WaitsFor(s, cycle[0], cycle[i1]);
    assert WaitsFor(s, cycle[i1], cycle[i2]);
    assert WaitsFor(s, cycle[i2], cycle[i3]);
  }

  // ---------- exactly when the lock can be released ----------

  /** The scan waits for a slot in a full channel that nobody will empty: the collector has ended,
      waits for the lock the scan holds, or has received a result for which it will. */
  predicate Doomed(s: State)
  {
    && s.lock == Some(Scan) && s.scan.SCopied? && |s.queue| == CAPACITY
    && (s.collect.CWantLock? || s.collect.CStopped? || (s.collect.CGot? && Dispatch(s.collect.code).CWantLock?))
  }

  lemma DoomedStep(s: State, step: Step)
    requires Exclusive(s) && Doomed(s)
    ensures var u := Next(s, step); Doomed(u) && u.files == s.files && u.trig.served == s.trig.served
  {
    hide ScanNext, InitNext, CollectNext;
    match step
    case ByScan(a) => DoomedScan(s, a);
    case ByInit(a) => InitYields(s, a);
    case ByCollector(a) => DoomedCollect(s, a);
    case ByOther(Touch) =>
    case ByOther(_) =>
  }

  lemma DoomedScan(s: State, step: ScanStep)
    requires Doomed(s)
    ensures ScanNext(s, step) == s
  {
  }

  lemma DoomedCollect(s: State, step: CollectStep)
    requires Doomed(s)
    ensures CollectNext(s, step) == s || CollectNext(s, step) == s.(collect := CWantLock)
  {
    match step
    case CollectDispatch =>
    case CollectReceive =>
    case CollectLock =>
    case _ =>
  }

  /** Once doomed, whatever happens afterwards, the lock is never released, no file changes and
      no further touch of the trigger file is ever served. */
  lemma {:induction false} DoomedForever(s: State, steps: seq<Step>)
    requires Exclusive(s) && Doomed(s)
    ensures var u := Run(s, steps); Doomed(u) && u.files == s.files && u.trig.served == s.trig.served
    decreases |steps|
  {
    hide Next, Exclusive, Doomed;
    if steps != [] {
      ExclusiveStep(s, steps[0]);
      DoomedStep(s, steps[0]);
      DoomedForever(Next(s, steps[0]), steps[1..]);
    }
  }

  /** A step towards releasing the lock: with a full channel a scan that has not copied its log
      gives up, and one that has waits for the collector to receive. */
  function ReleaseStep(s: State): Step
    requires s.lock.Some?
  {
    if s.lock == Some(Scan) && |s.queue| == CAPACITY && s.scan.SRan? then ByScan(ScanCopy(false))
    else if s.lock == Some(Scan) && |s.queue| == CAPACITY && s.scan.SCopied? then
      ByCollector(if s.collect.CGot? then CollectDispatch else if s.collect.CTell? then CollectTell else CollectReceive)
    else HolderStep(s)
  }

  /** How far that is. */
  function Distance(s: State): nat
  {
    if s.lock == Some(Scan) && s.scan.SCopied? then
      if |s.queue| < CAPACITY then 2 else if s.collect.CGot? then 5 else if s.collect.CTell? then 4 else 3
    else if s.lock == Some(Scan) && s.scan.SRan? then 7
    else if s.lock == Some(Scan) && s.scan.SLocked? then 8
    else Rank(s)
  }

  lemma Approaches(s: State)
    requires Exclusive(s) && s.lock.Some? && s.instance && s.listening && !Doomed(s)
    ensures var u := Next(s, ReleaseStep(s));
            && !Doomed(u) && u.instance && u.listening
            && (u.lock.None? || (u.lock == s.lock && Distance(u) < Distance(s)))
            && (s.lock != Some(Scan) ==> u.scan == s.scan)
            && (s.lock != Some(Init) ==> u.init == s.init && u.trig == s.trig)
  {
    hide ScanNext, InitNext, CollectNext;
    match s.lock.value
    case Scan => ScanApproaches(s);
    case Init => InitApproaches(s);
    case Collector => CollectApproaches(s);
  }

  /** A scan about to send: into a free slot, or after the collector has received. */
  lemma SendApproaches(s: State)
    requires Exclusive(s) && s.lock == Some(Scan) && s.scan.SCopied? && s.instance && s.listening && !Doomed(s)
    ensures var u := Next(s, ReleaseStep(s));
            && !Doomed(u) && u.instance && u.listening
            && (u.lock.None? || (u.lock == s.lock && Distance(u) < Distance(s)))
            && u.init == s.init && u.trig == s.trig
  {
    if |s.queue| < CAPACITY {
      assert Next(s, ReleaseStep(s)).scan.SSent?;
    } else {
      match s.collect
      case CGot(code) =>
      case CTell =>
      case _ =>
    }
  }

  lemma ScanApproaches(s: State)
    requires Exclusive(s) && s.lock == Some(Scan) && s.instance && s.listening && !Doomed(s)
    ensures var u := Next(s, ReleaseStep(s));
            && !Doomed(u) && u.instance && u.listening
            && (u.lock.None? || (u.lock == s.lock && Distance(u) < Distance(s)))
            && u.init == s.init && u.trig == s.trig
  {
    match s.scan
    case SCopied(_) => SendApproaches(s);
    case SRan(_) =>
    case SLocked =>
    case SReport =>
    case SErr =>
    case _ =>
  }

  lemma CollectApproaches(s: State)
    requires Exclusive(s) && s.lock == Some(Collector) && s.instance && s.listening
    ensures var u := Next(s, HolderStep(s));
            && u.instance && u.listening && u.scan == s.scan && u.init == s.init && u.trig == s.trig
            && (u.lock.None? || (u.lock == s.lock && CollectRank(u.collect) < CollectRank(s.collect)))
  {
  }

  lemma InitApproaches(s: State)
    requires Exclusive(s) && s.lock == Some(Init) && s.instance && s.listening
    ensures var u := Next(s, HolderStep(s));
            && u.instance && u.listening && u.scan == s.scan
            && (u.lock.None? || (u.lock == s.lock && InitRank(u.init) < InitRank(s.init)))
  {
  }

  lemma {:induction false} ReleasingRun(s: State) returns (steps: seq<Step>)
    requires Exclusive(s) && s.instance && s.listening && !Doomed(s)
    ensures Run(s, steps).lock.None?
    ensures s.lock != Some(Scan) ==> Run(s, steps).scan == s.scan
    ensures s.lock != Some(Init) ==> Run(s, steps).init == s.init && Run(s, steps).trig == s.trig
    ensures Run(s, steps).instance
    ensures forall step | step in steps :: !step.ByOther?
    decreases if s.lock.None? then 0 else 1 + Distance(s)
  {
    steps := [];
    if s.lock.Some? {
      var step := ReleaseStep(s);
      Approaches(s);
      ExclusiveStep(s, step);
      var rest := ReleasingRun(Next(s, step));
      steps := [step] + rest;
      assert steps[1..] == rest;
    }
  }

  lemma ReleasingFrom(s: State) returns (steps: seq<Step>)
    requires Exclusive(s) && s.listening && !Doomed(s)
    ensures Run(s, steps).lock.None?
  {
    var first := ByOther(Instance);
    var u := Next(s, first);
    assert u == s.(instance := true);
    var rest := ReleasingRun(u);
    hide Next, Exclusive, Doomed;
    steps := [first] + rest;
    assert steps[1..] == rest;
  }

  /** While the main routine receives errors, there is a run that releases the lock exactly when
      the state is not doomed. */
  lemma ReleasableIff(s: State)
    requires Exclusive(s) && s.listening
    ensures (exists steps :: Run(s, steps).lock.None?) <==> !Doomed(s)
  {
    if Doomed(s) {
      hide Exclusive, Run;
      forall steps
        ensures Run(s, steps).lock.Some?
      {
        DoomedForever(s, steps);
      }
    } else {
      hide Exclusive, Doomed, Run;
      var steps := ReleasingFrom(s);
    }
  }
}
