/** Runs of the node daemon: what hold-off and the `initializing` flag achieve, and which
    starts lead to a lock that is never released. */
module DaemonRuns {
  import opened Text
  import opened Daemon

  // ---------- building runs ----------

  lemma {:induction false} RunAppend(s: State, a: seq<Step>, b: seq<Step>)
    ensures Run(s, a + b) == Run(Run(s, a), b)
    decreases |a|
  {
    if a == [] {
      assert a + b == b;
    } else {
      assert (a + b)[1..] == a[1..] + b;
      RunAppend(Next(s, a[0]), a[1..], b);
    }
  }

  lemma RunMore(s: State, steps: seq<Step>, last: Step)
    ensures Run(s, steps + [last]) == Next(Run(s, steps), last)
  {
    RunAppend(s, steps, [last]);
    assert [last][1..] == [];
  }

  // ---------- what the two flags keep the scan from ----------

  predicate TakesLock(s: State, step: Step)
  {
    step == ByScan(ScanLock) && s.scan.SWantLock? && s.lock.None?
  }

  /** How often the scan takes the lock. */
  function ScanLocks(s: State, steps: seq<Step>): nat
    decreases |steps|
  {
    if steps == [] then 0
    else (if TakesLock(s, steps[0]) then 1 else 0) + ScanLocks(Next(s, steps[0]), steps[1..])
  }

  /** The scan is past the check of `holding`, or of `initializing`, and has not taken the lock yet. */
  function PastHoldCheck(s: State): nat
  {
    if s.scan.SWantLock? then 1 else 0
  }

  function PastInitCheck(s: State): nat
  {
    if s.scan.SNotInitializing? || s.scan.SWantLock? then 1 else 0
  }

  /** What the re-init loop leaves alone. */
  predicate InitKept(s: State, u: State)
  {
    && u.scan == s.scan && u.holding == s.holding
    && u.collect == s.collect && u.files.log == s.files.log && (s.cancelled ==> u.cancelled)
  }

  lemma InitKeeps(s: State, step: InitStep)
    ensures InitKept(s, InitNext(s, step))
  {
    hide PollNext, EnterNext, BuildNext;
    match step
    case Polling(a) => PollFrame(s, a);
    case Entering(a) => EnterKeeps(s, a);
    case Building(a) => BuildKeeps(s, a);
    case Failing(_) =>
  }

  lemma EnterKeeps(s: State, step: EnterStep)
    ensures InitKept(s, EnterNext(s, step))
  {
    match step
    case InitFlag =>
    case InitRemoveStat(_) =>
    case InitRemove(ok) => RemoveFrame(s, ok);
    case InitLock =>
  }

  lemma BuildKeeps(s: State, step: BuildStep)
    ensures InitKept(s, BuildNext(s, step))
  {
    hide Serve, Tick;
    match step
    case InitBackup(_) =>
    case InitBuild =>
    case InitRetry =>
    case InitBuilt(_) =>
    case InitCopy(_) =>
    case _ =>
  }

  lemma CollectKeepsScan(s: State, step: CollectStep)
    ensures CollectNext(s, step).scan == s.scan && CollectNext(s, step).holding == s.holding
  {
    match step
    case CollectReceive =>
    case CollectLock =>
    case CollectUpload(_) =>
    case _ =>
  }

  lemma FlagScan(s: State, step: ScanStep)
    ensures var u, took := ScanNext(s, step), if TakesLock(s, ByScan(step)) then 1 else 0;
            && (s.holding ==> took + PastHoldCheck(u) <= PastHoldCheck(s))
            && (s.initializing ==> took + PastInitCheck(u) <= PastInitCheck(s))
            && u.holding == s.holding
  {
    match step
    case ScanCheckInit =>
    case ScanCheckHold =>
    case ScanLock =>
    case ScanRun(_, _) =>
    case ScanCopy(_) =>
    case ScanSend =>
    case _ =>
  }

  /** No step lets the scan past a check of a flag that is set. */
  lemma FlagStep(s: State, step: Step)
    ensures var took := if TakesLock(s, step) then 1 else 0;
            && (s.holding ==> took + PastHoldCheck(Next(s, step)) <= PastHoldCheck(s))
            && (s.initializing ==> took + PastInitCheck(Next(s, step)) <= PastInitCheck(s))
    ensures s.holding && step != ByOther(Hold(false)) ==> Next(s, step).holding
  {
    hide ScanNext, InitNext, CollectNext;
    match step
    case ByScan(a) => FlagScan(s, a);
    case ByInit(a) => InitKeeps(s, a);
    case ByCollector(a) => CollectKeepsScan(s, a);
    case ByOther(_) =>
  }

  /** Hold-off is not lifted. */
  ghost predicate KeepsHolding(steps: seq<Step>)
  {
    forall step | step in steps :: step != ByOther(Hold(false))
  }

  /** While the node is held, the scan takes the lock at most once, and only if it had already
      checked the flag, whatever else happens. */
  lemma {:induction false} HeldScans(s: State, steps: seq<Step>)
    requires s.holding && KeepsHolding(steps)
    ensures ScanLocks(s, steps) <= PastHoldCheck(s)
    decreases |steps|
  {
    hide Next, TakesLock, PastHoldCheck, PastInitCheck;
    if steps != [] {
      assert steps[0] in steps && forall step | step in steps[1..] :: step in steps;
      FlagStep(s, steps[0]);
      HeldScans(Next(s, steps[0]), steps[1..]);
    }
  }

  ghost predicate KeepsInitializing(s: State, steps: seq<Step>)
    decreases |steps|
  {
    s.initializing && (steps != [] ==> KeepsInitializing(Next(s, steps[0]), steps[1..]))
  }

  /** The same for as long as an init is in progress. */
  lemma {:induction false} InitializingScans(s: State, steps: seq<Step>)
    requires KeepsInitializing(s, steps)
    ensures ScanLocks(s, steps) <= PastInitCheck(s)
    decreases |steps|
  {
    hide Next, TakesLock, PastHoldCheck, PastInitCheck;
    if steps != [] {
      FlagStep(s, steps[0]);
      InitializingScans(Next(s, steps[0]), steps[1..]);
    }
  }

  lemma {:induction false} LocksAtEnd(s: State, steps: seq<Step>, last: Step)
    requires TakesLock(Run(s, steps), last)
    ensures ScanLocks(s, steps + [last]) > 0
    decreases |steps|
  {
    if steps != [] {
      assert (steps + [last])[1..] == steps[1..] + [last];
      LocksAtEnd(Next(s, steps[0]), steps[1..], last);
    }
  }

  /** So a held node is scanned exactly when the scan was past its check: as long as errors are
      received, some run without lifting the hold-off then takes the lock. */
  lemma HeldScanIff(s: State)
    requires Exclusive(s) && s.holding && s.listening
    ensures (exists steps :: KeepsHolding(steps) && ScanLocks(s, steps) > 0) <==> s.scan.SWantLock?
  {
    if s.scan.SWantLock? {
      var first := ByOther(Instance);
      ExclusiveStep(s, first);
      var rest := ReleasingRun(Next(s, first));
      var steps := [first] + rest;
      assert steps[1..] == rest;
      assert TakesLock(Run(s, steps), ByScan(ScanLock));
      LocksAtEnd(s, steps, ByScan(ScanLock));
      assert KeepsHolding(steps + [ByScan(ScanLock)]);
    } else {
      forall steps | KeepsHolding(steps)
        ensures ScanLocks(s, steps) == 0
      {
        HeldScans(s, steps);
      }
    }
  }

  // ---------- ready to scan ----------

  predicate CanScan(s: State)
  {
    s.scan.SIdle? && s.lock.None? && !s.initializing && !s.holding && s.files.live.Some?
  }

  /** A log that is there is opened. */
  ghost predicate Opened(steps: seq<Step>)
  {
    forall step | step in steps :: step != ByCollector(CollectRead(OpenFails))
  }

  /** The re-init loop finds no database and takes the lock for a first init. */
  lemma InitEnters(s: State) returns (steps: seq<Step>)
    requires s.init.IIdle? && s.lock.None? && s.files.live.None? && !s.trig.present
    ensures Run(s, steps) == s.(lock := Some(Init), initializing := true, init := ILocked)
    ensures Opened(steps)
  {
    steps := [];
    RunMore(s, steps, ByInit(Polling(InitStatDb)));
    steps := steps + [ByInit(Polling(InitStatDb))];
    RunMore(s, steps, ByInit(Polling(InitStatTrigger)));
    steps := steps + [ByInit(Polling(InitStatTrigger))];
    RunMore(s, steps, ByInit(Entering(InitFlag)));
    steps := steps + [ByInit(Entering(InitFlag))];
    RunMore(s, steps, ByInit(Entering(InitRemoveStat(true))));
    steps := steps + [ByInit(Entering(InitRemoveStat(true)))];
    RunMore(s, steps, ByInit(Entering(InitRemove(true))));
    steps := steps + [ByInit(Entering(InitRemove(true)))];
    assert Run(s, steps) == s.(initializing := true, init := IWantLock);
    RunMore(s, steps, ByInit(Entering(InitLock)));
    steps := steps + [ByInit(Entering(InitLock))];
  }

  /** It builds and installs the database. */
  lemma InitInstalls(s: State) returns (steps: seq<Step>)
    requires s.init.ILocked?
    ensures var u := Run(s, steps);
            && u == s.(init := ICopied, files := u.files, trig := u.trig)
            && u.files.live.Some? && u.files.log == s.files.log
    ensures Opened(steps)
  {
    steps := [];
    RunMore(s, steps, ByInit(Building(InitBackup(true))));
    steps := steps + [ByInit(Building(InitBackup(true)))];
    RunMore(s, steps, ByInit(Building(InitBuild)));
    steps := steps + [ByInit(Building(InitBuild))];
    RunMore(s, steps, ByInit(Building(InitBuilt(true))));
    steps := steps + [ByInit(Building(InitBuilt(true)))];
    RunMore(s, steps, ByInit(Building(InitCopy(true))));
    steps := steps + [ByInit(Building(InitCopy(true)))];
  }

  lemma InitBuilds(s: State) returns (steps: seq<Step>)
    requires s.init.ILocked?
    ensures var u := Run(s, steps);
            && u == s.(lock := None, initializing := false, init := IIdle, files := u.files, trig := u.trig)
            && u.files.live.Some? && u.files.log == s.files.log
    ensures Opened(steps)
  {
    steps := InitInstalls(s);
    RunMore(s, steps, ByInit(Building(InitUnlock)));
    steps := steps + [ByInit(Building(InitUnlock))];
    RunMore(s, steps, ByInit(Building(InitClear)));
    steps := steps + [ByInit(Building(InitClear))];
  }

  /** The hold-off is lifted. */
  lemma HoldLifted(s: State) returns (steps: seq<Step>)
    ensures Run(s, steps) == s.(instance := true, holding := false) && Opened(steps)
  {
    steps := [];
    RunMore(s, steps, ByOther(Instance));
    steps := steps + [ByOther(Instance)];
    RunMore(s, steps, ByOther(Hold(false)));
    steps := steps + [ByOther(Hold(false))];
  }

  /** From every start the daemon gets ready to scan, with its log as it was. */
  lemma GetsReady(s: State) returns (steps: seq<Step>)
    requires Initial(s)
    ensures var u := Run(s, steps);
            && CanScan(u) && u.queue == [] && u.collect.CIdle? && !u.cancelled
            && u.files.log == s.files.log
    ensures Opened(steps)
  {
    steps := HoldLifted(s);
    var s1 := Run(s, steps);
    if s1.files.live.None? {
      var enter := InitEnters(s1);
      var s2 := Run(s1, enter);
      var build := InitBuilds(s2);
      RunAppend(s1, enter, build);
      RunAppend(s, steps, enter + build);
      steps := steps + (enter + build);
    }
  }

  // ---------- a scan while an init is in progress ----------

  /** The scan checks the flag, the init sets it, and then the scan takes the lock. */
  lemma ScanDuringInit(s: State) returns (steps: seq<Step>)
    requires Initial(s) && !s.holding && s.files.live.None?
    ensures var u := Run(s, steps); u.initializing && u.lock == Some(Scan)
  {
    steps := [];
    RunMore(s, steps, ByScan(ScanCheckInit));
    steps := steps + [ByScan(ScanCheckInit)];
    RunMore(s, steps, ByScan(ScanCheckHold));
    steps := steps + [ByScan(ScanCheckHold)];
    RunMore(s, steps, ByInit(Polling(InitStatDb)));
    steps := steps + [ByInit(Polling(InitStatDb))];
    RunMore(s, steps, ByInit(Polling(InitStatTrigger)));
    steps := steps + [ByInit(Polling(InitStatTrigger))];
    RunMore(s, steps, ByInit(Entering(InitFlag)));
    steps := steps + [ByInit(Entering(InitFlag))];
    RunMore(s, steps, ByScan(ScanLock));
    steps := steps + [ByScan(ScanLock)];
  }

  // ---------- both kinds of doom are reached ----------

  /** A scan that finds changes, and leaves an empty report, gets as far as sending its result. */
  lemma ScanToSend(s: State) returns (steps: seq<Step>)
    requires CanScan(s)
    ensures Run(s, steps) == s.(lock := Some(Scan), scan := SCopied(1), files := s.files.(newLog := 0))
    ensures Opened(steps)
  {
    steps := [];
    RunMore(s, steps, ByScan(ScanCheckInit));
    steps := steps + [ByScan(ScanCheckInit)];
    RunMore(s, steps, ByScan(ScanCheckHold));
    steps := steps + [ByScan(ScanCheckHold)];
    RunMore(s, steps, ByScan(ScanLock));
    steps := steps + [ByScan(ScanLock)];
    RunMore(s, steps, ByScan(ScanRun(1, 0)));
    steps := steps + [ByScan(ScanRun(1, 0))];
    RunMore(s, steps, ByScan(ScanCopy(true)));
    steps := steps + [ByScan(ScanCopy(true))];
  }

  /** One whole scan: its result is queued and the lock is free again. */
  lemma ScanOnce(s: State) returns (steps: seq<Step>)
    requires CanScan(s) && |s.queue| < CAPACITY
    ensures Run(s, steps) == s.(queue := s.queue + [1], files := s.files.(newLog := 0))
    ensures Opened(steps)
  {
    steps := ScanToSend(s);
    RunMore(s, steps, ByScan(ScanSend));
    steps := steps + [ByScan(ScanSend)];
    RunMore(s, steps, ByScan(ScanUnlock));
    steps := steps + [ByScan(ScanUnlock)];
  }

  ghost predicate AllChanges(queue: seq<int>)
  {
    forall code | code in queue :: code == 1
  }

  /** Scans that find changes fill the channel while the collector does nothing. */
  lemma {:induction false} FillChannel(s: State) returns (steps: seq<Step>)
    requires CanScan(s) && |s.queue| <= CAPACITY && AllChanges(s.queue)
    ensures var u := Run(s, steps);
            && CanScan(u) && |u.queue| == CAPACITY && AllChanges(u.queue)
            && u.collect == s.collect && u.cancelled == s.cancelled
    ensures Opened(steps)
    decreases CAPACITY - |s.queue|
  {
    steps := [];
    if |s.queue| < CAPACITY {
      var first := ScanOnce(s);
      var rest := FillChannel(Run(s, first));
      RunAppend(s, first, rest);
      steps := first + rest;
    }
  }

  /** The collector receives a failed result, finds the log empty and ends without an error. */
  lemma CollectorEnds(s: State) returns (steps: seq<Step>)
    requires s.collect.CIdle? && s.queue == [1] && s.lock.None? && s.files.log == 0
    ensures Run(s, steps) == s.(collect := CStopped, queue := [])
    ensures Opened(steps)
  {
    steps := [];
    RunMore(s, steps, ByCollector(CollectReceive));
    steps := steps + [ByCollector(CollectReceive)];
    RunMore(s, steps, ByCollector(CollectDispatch));
    steps := steps + [ByCollector(CollectDispatch)];
    RunMore(s, steps, ByCollector(CollectLock));
    steps := steps + [ByCollector(CollectLock)];
    RunMore(s, steps, ByCollector(CollectRead(ReadOk)));
    steps := steps + [ByCollector(CollectRead(ReadOk))];
    RunMore(s, steps, ByCollector(CollectUnlock));
    steps := steps + [ByCollector(CollectUnlock)];
  }

  /** The collector has ended and nothing was ever reported. */
  predicate EndedSilently(s: State)
  {
    s.collect.CStopped? && !s.cancelled
  }

  /** One failed scan with an empty report, the end of the collector, and a full channel. */
  lemma EndsAndFills(s: State) returns (steps: seq<Step>)
    requires CanScan(s) && s.queue == [] && s.collect.CIdle? && !s.cancelled && s.files.log == 0
    ensures Doomed(Run(s, steps)) && EndedSilently(Run(s, steps)) && Opened(steps)
  {
    var scan := ScanOnce(s);
    var s1 := Run(s, scan);
    var collect := CollectorEnds(s1);
    var s2 := Run(s1, collect);
    var fill := FillChannel(s2);
    var send := ScanToSend(Run(s2, fill));
    RunAppend(s2, fill, send);
    RunAppend(s1, collect, fill + send);
    RunAppend(s, scan, collect + (fill + send));
    steps := scan + (collect + (fill + send));
  }

  /** The silent end of the collector on an empty log dooms the daemon: from every start without a
      log there is a run to a doomed state in which no error was ever reported. */
  lemma SilentEndDooms(s: State) returns (steps: seq<Step>)
    requires Initial(s) && s.files.log == 0
    ensures Doomed(Run(s, steps)) && EndedSilently(Run(s, steps)) && Opened(steps)
  {
    var ready := GetsReady(s);
    var rest := EndsAndFills(Run(s, ready));
    RunAppend(s, ready, rest);
    steps := ready + rest;
  }

  /** The log has content, and a collector that ends has reported why. */
  predicate Reporting(s: State)
  {
    s.files.log != 0 && (s.collect.CStopped? || s.collect == CDone(true) ==> s.cancelled)
  }

  lemma ReportingStep(s: State, step: Step)
    requires Reporting(s) && step != ByCollector(CollectRead(OpenFails))
    ensures Reporting(Next(s, step))
  {
    hide ScanNext, InitNext, CollectNext;
    match step
    case ByScan(a) => ReportingScan(s, a);
    case ByInit(a) => InitKeeps(s, a);
    case ByCollector(a) => ReportingCollect(s, a);
    case ByOther(_) =>
  }

  lemma ReportingScan(s: State, step: ScanStep)
    requires Reporting(s)
    ensures Reporting(ScanNext(s, step))
  {
    match step
    case ScanLock =>
    case ScanRun(_, _) =>
    case ScanCopy(_) =>
    case ScanSend =>
    case _ =>
  }

  lemma ReportingCollect(s: State, step: CollectStep)
    requires Reporting(s) && step != CollectRead(OpenFails)
    ensures Reporting(CollectNext(s, step))
  {
    match step
    case CollectReceive =>
    case CollectLock =>
    case CollectRead(_) =>
    case CollectUpload(_) =>
    case CollectUnlock =>
    case _ =>
  }

  lemma {:induction false} RunReporting(s: State, steps: seq<Step>)
    requires Reporting(s) && Opened(steps)
    ensures Reporting(Run(s, steps))
    decreases |steps|
  {
    hide Next, Reporting;
    if steps != [] {
      assert steps[0] in steps && forall step | step in steps[1..] :: step in steps;
      ReportingStep(s, steps[0]);
      RunReporting(Next(s, steps[0]), steps[1..]);
    }
  }

  /** The collector can end without reporting anything exactly on a node that starts without a
      log; a log that was once there is never lost again. */
  lemma SilentEndIff(s: State)
    requires Initial(s)
    ensures (exists steps :: Opened(steps) && EndedSilently(Run(s, steps))) <==> s.files.log == 0
  {
    if s.files.log == 0 {
      var steps := SilentEndDooms(s);
    } else {
      forall steps | Opened(steps)
        ensures !EndedSilently(Run(s, steps))
      {
        RunReporting(s, steps);
      }
    }
  }

  /** The collector takes one result that needs the lock. */
  lemma CollectorWants(s: State) returns (steps: seq<Step>)
    requires s.collect.CIdle? && s.queue != [] && AllChanges(s.queue)
    ensures Run(s, steps) == s.(collect := CWantLock, queue := s.queue[1..])
  {
    assert s.queue[0] in s.queue;
    steps := [];
    RunMore(s, steps, ByCollector(CollectReceive));
    steps := steps + [ByCollector(CollectReceive)];
    RunMore(s, steps, ByCollector(CollectDispatch));
    steps := steps + [ByCollector(CollectDispatch)];
  }

  /** The channel is full when the collector takes a result, and two more scans get the lock
      before it does. */
  lemma FillsAndWants(s: State) returns (steps: seq<Step>)
    requires CanScan(s) && s.queue == [] && s.collect.CIdle?
    ensures ScanCollectorDeadlock(Run(s, steps)) && |Run(s, steps).queue| == 50
  {
    var fill := FillChannel(s);
    var s1 := Run(s, fill);
    var take := CollectorWants(s1);
    var s2 := Run(s1, take);
    var scan := ScanOnce(s2);
    var s3 := Run(s2, scan);
    var send := ScanToSend(s3);
    RunAppend(s2, scan, send);
    RunAppend(s1, take, scan + send);
    RunAppend(s, fill, take + (scan + send));
    steps := fill + (take + (scan + send));
  }

  /** The wait cycle is reached from every start, with 50 results in the channel. */
  lemma DeadlockIsReached(s: State) returns (steps: seq<Step>)
    requires Initial(s)
    ensures ScanCollectorDeadlock(Run(s, steps)) && |Run(s, steps).queue| == 50
  {
    var ready := GetsReady(s);
    var rest := FillsAndWants(Run(s, ready));
    RunAppend(s, ready, rest);
    steps := ready + rest;
  }
}
