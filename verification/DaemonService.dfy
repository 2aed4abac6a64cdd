/** When a touch of the trigger file gets served: exactly in which states the daemon can still
    re-initialise for it without an error having been reported. */
module DaemonService {
  import opened Text
  import opened Daemon
  import opened DaemonRuns

  // ---------- polling ----------

  /** The re-init loop starts an init exactly when the database is missing or the trigger file is there. */
  lemma PollEntersIff(s: State)
    requires s.init.IIdle?
    ensures var u := Next(Next(s, ByInit(Polling(InitStatDb))), ByInit(Polling(InitStatTrigger)));
            u == s.(init := if s.files.live.None? || s.trig.present then IEnter else IIdle)
  {
  }

  // ---------- states in which a touch can be served ----------

  /** The re-init loop has not run into an error and has not ended. */
  predicate InitHealthy(pc: InitPc)
  {
    !pc.IReport? && !pc.IErr? && !pc.ILeave? && !pc.IStopped?
  }

  /** The collector will not receive before it gets the lock, or at all. */
  predicate WillNotReceive(pc: CollectPc)
  {
    pc.CWantLock? || pc.CStopped? || (pc.CGot? && Dispatch(pc.code).CWantLock?)
  }

  /** The scan has yet to send its result, the channel is full, and the collector will not receive. */
  predicate Cornered(s: State)
  {
    (s.scan.SLocked? || s.scan.SRan? || s.scan.SCopied?) && |s.queue| >= CAPACITY && WillNotReceive(s.collect)
  }

  /** Whoever holds the lock can release it without an error. */
  predicate HolderHealthy(s: State)
  {
    && (s.lock == Some(Scan) ==> !s.scan.SReport? && !s.scan.SErr? && !Cornered(s))
    && (s.lock == Some(Collector) ==> !s.collect.CReport? && !s.collect.CErr?)
  }

  predicate Serviceable(s: State)
  {
    InitHealthy(s.init) && HolderHealthy(s)
  }

  // ---------- in all other states no touch is served any more ----------

  lemma UnserviceableInit(s: State, step: InitStep)
    requires Exclusive(s) && !Serviceable(s)
    ensures var u := InitNext(s, step); !Serviceable(u) && u.trig.served == s.trig.served
  {
    hide InitNext;
    if !InitHealthy(s.init) {
      UnhealthyInit(s, step);
    } else {
      InitYields(s, step);
    }
  }

  /** Once the re-init loop has failed or ended it serves nothing any more. */
  lemma UnhealthyInit(s: State, step: InitStep)
    requires !InitHealthy(s.init)
    ensures var u := InitNext(s, step); !InitHealthy(u.init) && u.trig.served == s.trig.served
  {
    match step
    case Polling(_) =>
    case Entering(_) =>
    case Building(_) =>
    case Failing(_) =>
  }

  lemma UnserviceableScan(s: State, step: ScanStep)
    requires Exclusive(s) && !Serviceable(s)
    ensures var u := ScanNext(s, step); u.cancelled || (!Serviceable(u) && u.trig.served == s.trig.served)
  {
    match step
    case ScanLock =>
    case ScanRun(_, _) =>
    case ScanCopy(_) =>
    case ScanSend =>
    case ScanErr =>
    case _ =>
  }

  lemma UnserviceableCollect(s: State, step: CollectStep)
    requires Exclusive(s) && !Serviceable(s)
    ensures var u := CollectNext(s, step); u.cancelled || (!Serviceable(u) && u.trig.served == s.trig.served)
  {
    match step
    case CollectReceive =>
    case CollectDispatch =>
    case CollectLock =>
    case CollectRead(_) =>
    case CollectUpload(_) =>
    case CollectErr =>
    case CollectUnlock =>
    case _ =>
  }

  lemma UnserviceableStep(s: State, step: Step)
    requires Exclusive(s) && !Serviceable(s)
    ensures var u := Next(s, step); u.cancelled || (!Serviceable(u) && u.trig.served == s.trig.served)
  {
    hide ScanNext, InitNext, CollectNext, OtherNext;
    match step
    case ByScan(a) => UnserviceableScan(s, a);
    case ByInit(a) => UnserviceableInit(s, a);
    case ByCollector(a) => UnserviceableCollect(s, a);
    case ByOther(a) => UnserviceableOther(s, a);
  }

  lemma UnserviceableOther(s: State, step: OtherStep)
    requires !Serviceable(s)
    ensures var u := OtherNext(s, step); u.cancelled || (!Serviceable(u) && u.trig.served == s.trig.served)
  {
    match step
    case Touch =>
    case Instance =>
    case Hold(_) =>
    case Terminate =>
    case MainWaits =>
  }

  lemma CancelledStays(s: State, step: Step)
    requires s.cancelled
    ensures Next(s, step).cancelled
  {
    hide ScanNext, PollNext, EnterNext, BuildNext, CollectNext;
    match step
    case ByScan(a) => ScanStaysCancelled(s, a);
    case ByInit(Polling(a)) => PollFrame(s, a);
    case ByInit(Entering(a)) => EnterKeepsOrder(s, a);
    case ByInit(Building(a)) => BuildKeepsOrder(s, a);
    case ByInit(Failing(_)) =>
    case ByCollector(a) => CollectStaysCancelled(s, a);
    case ByOther(_) =>
  }

  lemma ScanStaysCancelled(s: State, step: ScanStep)
    requires s.cancelled
    ensures ScanNext(s, step).cancelled
  {
  }

  lemma CollectStaysCancelled(s: State, step: CollectStep)
    requires s.cancelled
    ensures CollectNext(s, step).cancelled
  {
  }

  /** From such a state no run serves a touch before an error is reported or the daemon is ended. */
  lemma {:induction false} NeverServed(s: State, steps: seq<Step>)
    requires Exclusive(s) && (s.cancelled || !Serviceable(s))
    ensures Run(s, steps).cancelled || (!s.cancelled && Run(s, steps).trig.served == s.trig.served)
    decreases |steps|
  {
    hide Next, Exclusive, Serviceable;
    if steps != [] {
      ExclusiveStep(s, steps[0]);
      if s.cancelled {
        CancelledStays(s, steps[0]);
      } else {
        UnserviceableStep(s, steps[0]);
      }
      NeverServed(Next(s, steps[0]), steps[1..]);
    }
  }

  // ---------- in these states it can be served ----------

  /** The next step of the re-init loop, when the lock is free or its own. */
  function InitStepOf(pc: InitPc): InitStep
  {
    match pc
    case IIdle => Polling(InitStatDb)
    case IStatDb(_) => Polling(InitStatTrigger)
    case IEnter => Entering(InitFlag)
    case IFlagged => Entering(InitRemoveStat(true))
    case IRemoving(_) => Entering(InitRemove(true))
    case IWantLock => Entering(InitLock)
    case ILocked => Building(InitBackup(true))
    case IBacked => Building(InitBuild)
    case IBuilding(_, _) => Building(InitBuilt(true))
    case IBuilt(_) => Building(InitCopy(true))
    case ICopied => Building(InitUnlock)
    case _ => Building(InitClear)
  }

  /** How many of them are left until the loop polls again. */
  function StepsLeft(pc: InitPc): nat
  {
    match pc
    case IIdle => 12
    case IStatDb(_) => 11
    case IEnter => 10
    case IFlagged => 9
    case IRemoving(_) => 8
    case IWantLock => 7
    case ILocked => 6
    case IBacked => 5
    case IBuilding(_, _) => 4
    case IBuilt(_) => 3
    case ICopied => 2
    case _ => 1
  }

  /** The init of this round will remove the trigger file. */
  predicate WillRemove(pc: InitPc)
  {
    pc.IIdle? || pc.IStatDb? || pc.IEnter? || pc.IFlagged? || pc == IRemoving(true)
  }

  /** How many steps of the re-init loop the touch is away from being served: this round's, or this
      round's and the next. */
  function Wait(s: State, t: nat): nat
  {
    if t in s.trig.consumed || WillRemove(s.init) then StepsLeft(s.init) else StepsLeft(s.init) + 12
  }

  /** The touch is on record and everything is in order. */
  ghost predicate InService(s: State, t: nat)
  {
    && Exclusive(s) && Triggers(s) && Serviceable(s) && s.instance
    && (t in s.trig.pending || t in s.trig.consumed)
  }

  lemma PollServes(s: State, step: PollStep, t: nat)
    requires InService(s, t) && Polling(step) == InitStepOf(s.init)
    ensures var u := PollNext(s, step); u.trig == s.trig && Serviceable(u) && Wait(u, t) < Wait(s, t)
  {
  }

  lemma EnterServes(s: State, step: EnterStep, t: nat)
    requires InService(s, t) && Entering(step) == InitStepOf(s.init) && (step.InitLock? ==> s.lock.None?)
    ensures var u := EnterNext(s, step);
            && (t in u.trig.pending || t in u.trig.consumed)
            && Serviceable(u) && Wait(u, t) < Wait(s, t)
  {
    hide Triggers;
    TriggerFacts(s);
    match step
    case InitFlag =>
    case InitRemoveStat(_) =>
    case InitRemove(_) =>
    case InitLock =>
  }

  /** What the account of touches says about the re-init loop. */
  lemma TriggerFacts(s: State)
    requires Triggers(s)
    ensures s.trig.pending != {} ==> s.trig.present
    ensures s.trig.consumed != {} ==> Carrying(s.init)
  {
  }

  lemma BuildServes(s: State, step: BuildStep, t: nat)
    requires InService(s, t) && Building(step) == InitStepOf(s.init)
    ensures var u := BuildNext(s, step);
            && (t in u.trig.served ||
                ((t in u.trig.pending || t in u.trig.consumed) && Serviceable(u) && Wait(u, t) < Wait(s, t)))
  {
    hide Triggers;
    TriggerFacts(s);
    match step
    case InitBackup(_) =>
    case InitBuild =>
    case InitBuilt(_) =>
    case InitCopy(_) =>
    case InitUnlock =>
    case InitClear =>
    case InitRetry =>
  }

  /** The step of the lock holder, or for a full channel of the collector, that brings the release of
      the lock closer. */
  function FreeingStep(s: State): Step
  {
    if s.lock == Some(Collector) then
      ByCollector(match s.collect
                  case CLocked => CollectRead(ReadOk)
                  case CUpload => CollectUpload(true)
                  case _ => CollectUnlock)
    else match s.scan
      case SLocked => ByScan(ScanRun(0, 0))
      case SRan(_) => ByScan(ScanCopy(true))
      case SCopied(_) =>
        if |s.queue| < CAPACITY then ByScan(ScanSend)
        else ByCollector(if s.collect.CGot? then CollectDispatch
                         else if s.collect.CTell? then CollectTell else CollectReceive)
      case SErrUnlock => ByScan(ScanErrUnlock)
      case _ => ByScan(ScanUnlock)
  }

  function FreeingSteps(s: State): nat
  {
    if s.lock == Some(Collector) then
      match s.collect
      case CLocked => 3
      case CUpload => 2
      case _ => 1
    else match s.scan
      case SLocked => 7
      case SRan(_) => 6
      case SCopied(_) =>
        if |s.queue| < CAPACITY then 2 else if s.collect.CGot? then 5 else if s.collect.CTell? then 4 else 3
      case _ => 1
  }

  /** What freeing the lock leaves alone. */
  predicate Freed(s: State, u: State)
  {
    && u.init == s.init && u.trig == s.trig && u.instance == s.instance && u.cancelled == s.cancelled
    && Serviceable(u) && (u.lock.None? || (u.lock == s.lock && FreeingSteps(u) < FreeingSteps(s)))
  }

  lemma CollectorFrees(s: State)
    requires Exclusive(s) && Serviceable(s) && s.instance && s.lock == Some(Collector)
    ensures Freed(s, Next(s, FreeingStep(s)))
  {
    match s.collect
    case CLocked =>
    case CUpload =>
    case _ =>
  }

  lemma ScanFrees(s: State)
    requires Exclusive(s) && Serviceable(s) && s.instance && s.lock == Some(Scan)
    ensures Freed(s, Next(s, FreeingStep(s)))
  {
    match s.scan
    case SLocked =>
    case SRan(_) =>
    case SCopied(_) => SendFrees(s);
    case _ =>
  }

  lemma SendFrees(s: State)
    requires Exclusive(s) && Serviceable(s) && s.instance && s.lock == Some(Scan) && s.scan.SCopied?
    ensures Freed(s, Next(s, FreeingStep(s)))
  {
    if |s.queue| >= CAPACITY {
      match s.collect
      case CGot(_) =>
      case CTell =>
      case _ =>
    }
  }

  /** The step that brings the touch closer to being served. */
  function ServingStep(s: State): Step
  {
    if s.init.IWantLock? && s.lock.Some? then FreeingStep(s) else ByInit(InitStepOf(s.init))
  }

  function Waiting(s: State): nat
  {
    if s.init.IWantLock? && s.lock.Some? then FreeingSteps(s) else 0
  }

  lemma InitServes(s: State, t: nat)
    requires InService(s, t) && !(s.init.IWantLock? && s.lock.Some?)
    ensures var u := InitNext(s, InitStepOf(s.init));
            && (t in u.trig.served ||
                ((t in u.trig.pending || t in u.trig.consumed) && Serviceable(u) && Wait(u, t) < Wait(s, t)))
            && u.instance && u.cancelled == s.cancelled
  {
    hide InService, Serviceable, Wait, PollNext, EnterNext, BuildNext;
    match InitStepOf(s.init)
    case Polling(a) =>
      PollServes(s, a, t);
      PollFrame(s, a);
      StillOnRecord(s, t);
    case Entering(a) =>
      EnterServes(s, a, t);
      EnterKeepsOrder(s, a);
      StillOnRecord(s, t);
    case Building(a) =>
      BuildServes(s, a, t);
      BuildKeepsOrder(s, a);
      StillOnRecord(s, t);
  }

  lemma StillOnRecord(s: State, t: nat)
    requires InService(s, t)
    ensures (t in s.trig.pending || t in s.trig.consumed) && s.instance
  {
  }

  lemma EnterKeepsOrder(s: State, step: EnterStep)
    ensures EnterNext(s, step).instance == s.instance && EnterNext(s, step).cancelled == s.cancelled
  {
    match step
    case InitFlag =>
    case InitRemoveStat(_) =>
    case InitRemove(ok) => RemoveFrame(s, ok);
    case InitLock =>
  }

  lemma BuildKeepsOrder(s: State, step: BuildStep)
    ensures BuildNext(s, step).instance == s.instance && BuildNext(s, step).cancelled == s.cancelled
  {
    hide Serve, Tick;
    match step
    case InitBackup(_) =>
    case InitBuilt(_) =>
    case InitCopy(_) =>
    case _ =>
  }

  /** One such step serves the touch, or leaves it in service with less to do. */
  lemma StepServes(s: State, t: nat)
    requires InService(s, t)
    ensures var u := Next(s, ServingStep(s));
            && u.cancelled == s.cancelled
            && (t in u.trig.served ||
                (InService(u, t) &&
                 (Wait(u, t) < Wait(s, t) || (Wait(u, t) == Wait(s, t) && Waiting(u) < Waiting(s)))))
  {
    var step := ServingStep(s);
    ExclusiveStep(s, step);
    TriggersStep(s, step);
    hide Exclusive, Triggers, Serviceable, InitNext, ScanNext, CollectNext;
    if s.init.IWantLock? && s.lock.Some? {
      HolderIsOther(s);
      if s.lock == Some(Scan) {
        ScanFrees(s);
      } else {
        CollectorFrees(s);
      }
    } else {
      InitServes(s, t);
    }
  }

  lemma HolderIsOther(s: State)
    requires Exclusive(s) && s.init.IWantLock? && s.lock.Some?
    ensures s.lock == Some(Scan) || s.lock == Some(Collector)
  {
    match s.lock.value
    case Scan =>
    case Init =>
    case Collector =>
  }

  lemma {:induction false} ServingRun(s: State, t: nat) returns (steps: seq<Step>)
    requires InService(s, t)
    ensures t in Run(s, steps).trig.served && Run(s, steps).cancelled == s.cancelled
    decreases Wait(s, t), Waiting(s)
  {
    hide Next, InService, Wait, Waiting, ServingStep;
    var step := ServingStep(s);
    var u := Next(s, step);
    StepServes(s, t);
    assert [step][1..] == [] && Run(u, []) == u;
    if t in u.trig.served {
      steps := [step];
    } else {
      var rest := ServingRun(u, t);
      steps := [step] + rest;
      assert steps[1..] == rest;
    }
  }

  /** The run serves the touch and no error is reported in it. */
  predicate Serves(s: State, steps: seq<Step>, t: nat)
  {
    t in Run(s, steps).trig.served && !Run(s, steps).cancelled
  }

  lemma CanBeServed(s: State, t: nat) returns (steps: seq<Step>)
    requires Exclusive(s) && Triggers(s) && Serviceable(s)
    requires t in s.trig.pending || t in s.trig.consumed
    ensures t in Run(s, steps).trig.served && Run(s, steps).cancelled == s.cancelled
  {
    var first := ByOther(Instance);
    ExclusiveStep(s, first);
    TriggersStep(s, first);
    var u := Next(s, first);
    assert InService(u, t) by {
      assert u == s.(instance := true);
    }
    hide Next, InService, Exclusive, Triggers, Serviceable;
    var rest := ServingRun(u, t);
    steps := [first] + rest;
    assert steps[1..] == rest;
  }

  /** Before an error has been reported, a pending touch can still be served, without an error, exactly
      when the re-init loop is healthy and the holder of the lock can release it without one. */
  lemma ServedIff(s: State, t: nat)
    requires Exclusive(s) && Triggers(s) && !s.cancelled && t in s.trig.pending && t !in s.trig.served
    ensures (exists steps :: Serves(s, steps, t)) <==> Serviceable(s)
  {
    hide Exclusive, Triggers, Serviceable, Run;
    if Serviceable(s) {
      var steps := CanBeServed(s, t);
      assert Serves(s, steps, t);
    } else {
      forall steps
        ensures !Serves(s, steps, t)
      {
        NeverServed(s, steps);
      }
    }
  }

  /** So in every run from every start: while nothing has gone wrong, each touch of the trigger file
      made so far has been served or can still be. */
  lemma EveryTouchCanBeServed(s: State, steps: seq<Step>, t: nat)
    requires Initial(s) && t in Run(s, steps).trig.touches
    requires !Run(s, steps).cancelled && Serviceable(Run(s, steps))
    ensures t in Run(s, steps).trig.served || exists more :: Serves(Run(s, steps), more, t)
  {
    RunInvariant(s, steps);
    var u := Run(s, steps);
    hide Exclusive, Serviceable, Run;
    if t !in u.trig.served {
      var more := CanBeServed(u, t);
      assert Serves(u, more, t);
    }
  }

  // ---------- errors included ----------

  lemma {:induction false} UnhealthyNeverServes(s: State, steps: seq<Step>)
    requires Exclusive(s) && !InitHealthy(s.init)
    ensures Run(s, steps).trig.served == s.trig.served
    decreases |steps|
  {
    hide Next, Exclusive, InitHealthy;
    if steps != [] {
      ExclusiveStep(s, steps[0]);
      UnhealthyStep(s, steps[0]);
      UnhealthyNeverServes(Next(s, steps[0]), steps[1..]);
    }
  }

  lemma UnhealthyStep(s: State, step: Step)
    requires !InitHealthy(s.init)
    ensures !InitHealthy(Next(s, step).init) && Next(s, step).trig.served == s.trig.served
  {
    hide ScanNext, InitNext, CollectNext;
    match step
    case ByScan(a) => ScanFrame(s, a);
    case ByInit(a) => UnhealthyInit(s, a);
    case ByCollector(a) => CollectFrame(s, a);
    case ByOther(_) =>
  }

  /** If errors may be reported on the way, a pending touch can be served exactly when the re-init loop
      is healthy and the state is not doomed, as long as the main routine receives errors. */
  lemma ServedWithErrorsIff(s: State, t: nat)
    requires Exclusive(s) && Triggers(s) && s.listening && t in s.trig.pending && t !in s.trig.served
    ensures (exists steps :: t in Run(s, steps).trig.served) <==> InitHealthy(s.init) && !Doomed(s)
  {
    if !InitHealthy(s.init) {
      forall steps ensures t !in Run(s, steps).trig.served { UnhealthyNeverServes(s, steps); }
    } else if Doomed(s) {
      forall steps ensures t !in Run(s, steps).trig.served { DoomedForever(s, steps); }
    } else {
      var steps := ReleaseThenServe(s, t);
    }
  }

  lemma ReleaseThenServe(s: State, t: nat) returns (steps: seq<Step>)
    requires Exclusive(s) && Triggers(s) && s.listening && t in s.trig.pending
    requires InitHealthy(s.init) && !Doomed(s)
    ensures t in Run(s, steps).trig.served
  {
    if s.lock == Some(Init) {
      steps := CanBeServed(s, t);
    } else {
      var u := Next(s, ByOther(Instance));
      assert u == s.(instance := true);
      var free := ReleasingRun(u);
      RunInvariant(u, free);
      var rest := CanBeServed(Run(u, free), t);
      hide Next, Exclusive, Triggers, Doomed;
      RunAppend(u, free, rest);
      steps := [ByOther(Instance)] + (free + rest);
      assert steps[1..] == free + rest;
    }
  }
}
