/** Exactly which API calls leave a listed entry without its DaemonSet.

    With whole reconciles there are two such situations (Handoff.Gap). Split at the API
    calls there are more: a reconcile that stops between two calls, a write that
    turns another reconcile's write into a conflict, a delete decided on an old list. */
module HandoffBacking {
  import opened Text
  import opened Annotations
  import opened UpdatedList
  import opened Coverage
  import opened Handoff
  import opened HandoffSteps
  import HandoffRuns

  /** The ConfigMap reconcile has deleted the DaemonSet of the entry and will pop it. */
  predicate CmOwes(s: Fine, t: Target)
  {
    s.cm.CmDeleted? && s.cm.cmv == s.cmRv && t == TargetOf(TopText(s.cm.text))
  }

  /** The FileIntegrity reconcile has listed all nodes for a new configuration and will make
      the DaemonSet. */
  predicate FiOwes(s: Fine, t: Target)
  {
    t == All && s.fi.FiDecided? && s.fi.hasNew && REINIT_ON_FAILED !in s.fi.ann
  }

  /** The entry has a DaemonSet, or a reconcile in progress answers for it. */
  predicate BackedEntry(s: Fine, t: Target)
  {
    t in s.w.ds || CmOwes(s, t) || FiOwes(s, t)
  }

  ghost predicate Backed(s: Fine)
  {
    WellStacked(Decode(s.w.updated)) && forall t | t in Decode(s.w.updated) :: BackedEntry(s, t)
  }

  /** The calls that strand an entry, read off the state before the call. */
  predicate Breaks(s: Fine, step: Step)
  {
    match step
    // a new configuration lists all nodes, but re-init-on-failed will end the reconcile first
    case FiUserConfig(_) =>
      && s.fi.FiConf? && NewConfig(s.w) && s.fi.cmv == s.cmRv
      && All !in s.w.ds && REINIT_ON_FAILED in s.fi.ann
    // an entry is listed whose DaemonSet is missing or gone, or a deleted entry can no longer be popped
    case FiPush =>
      && s.fi.FiGot? && s.fi.cmv == s.cmRv && PushText(s.fi.list, s.fi.node) != s.w.updated
      && (TargetOf(s.fi.node) !in s.w.ds ||
          (s.fi.node != "" && s.cm.CmDeleted? && s.cm.cmv == s.cmRv && TargetOf(TopText(s.cm.text)) !in s.w.ds))
    // the reconcile stops after listing all nodes and before making their DaemonSet
    case FiStop => FiOwes(s, All) && All in Decode(s.w.updated) && All !in s.w.ds && !CmOwes(s, All)
    // a sweep decided on an old list deletes the DaemonSet of a node listed since
    case CmSweep(t) => s.cm.CmSweeping? && t in s.cm.todo && t in Decode(s.w.updated) && !FiOwes(s, t)
    // a delete decided on an old list
    case CmDelete =>
      && s.cm.CmSaw? && s.cm.cmv != s.cmRv
      && var t := TargetOf(TopText(s.cm.text));
         t in s.w.ds && t in Decode(s.w.updated) && !FiOwes(s, t)
    // the reconcile stops between deleting the DaemonSet and popping the entry
    case CmStop =>
      && s.cm.CmDeleted? && s.cm.cmv == s.cmRv
      && var t := TargetOf(TopText(s.cm.text)); t !in s.w.ds && !FiOwes(s, t)
    case _ => false
  }

  // ---------- the calls of the FileIntegrity reconcile ----------

  /** Calls that change neither list nor DaemonSets nor who answers for what. */
  lemma UnchangedBacked(s: Fine, u: Fine)
    requires Backed(s) && u.w.updated == s.w.updated && s.w.ds.Keys <= u.w.ds.Keys
    requires forall t :: CmOwes(s, t) ==> CmOwes(u, t)
    requires forall t :: FiOwes(s, t) ==> FiOwes(u, t) || t in u.w.ds
    ensures Backed(u)
  {
    assert forall t | BackedEntry(s, t) :: BackedEntry(u, t);
  }

  lemma UserConfigBacked(s: Fine, again: bool)
    requires FiSnapshot(s) && CmSnapshot(s) && Backed(s)
    ensures Backed(Next(s, FiUserConfig(again))) <==> !Breaks(s, FiUserConfig(again))
  {
    var u := Next(s, FiUserConfig(again));
    if s.fi.FiConf? && NewConfig(s.w) && s.fi.cmv == s.cmRv {
      PushRefines(s.fi.list, "");
      assert Decode(u.w.updated) == [All];
      assert u.cmRv != s.cmRv && u.w.ds == s.w.ds;
      assert BackedEntry(u, All) <==> !Breaks(s, FiUserConfig(again));
      assert All in Decode(u.w.updated);
    } else {
      UnchangedBacked(s, u);
    }
  }

  lemma EnsureBacked(s: Fine)
    requires Backed(s)
    ensures Backed(Next(s, FiEnsure))
  {
    UnchangedBacked(s, Next(s, FiEnsure));
  }

  /** Pushing on a stack of which at most one entry is without a DaemonSet. */
  lemma PushAllPresent(stack: seq<Target>, t: Target, ds: set<Target>, owed: Option<Target>)
    requires forall x | x in stack :: x in ds || owed == Some(x)
    requires owed.Some? ==> owed.value in stack
    ensures (forall x | x in Push(stack, t) :: x in ds) <==> t in ds && (t.All? || owed.None? || owed.value in ds)
  {
    assert t in Push(stack, t);
    assert forall x | x in Push(stack, t) :: x == t || x in stack;
    assert forall x | x in stack :: t.All? || x in Push(stack, t);
  }

  /** An accepted push that changes the list. */
  lemma PushWritten(s: Fine)
    requires FiSnapshot(s) && CmSnapshot(s) && Backed(s)
    requires s.fi.FiGot? && s.fi.cmv == s.cmRv && PushText(s.fi.list, s.fi.node) != s.w.updated
    ensures Backed(Next(s, FiPush)) <==> !Breaks(s, FiPush)
  {
    hide Decode, Push, WellStacked, PushText, TopText;
    var u := Next(s, FiPush);
    var stack, t := Decode(s.w.updated), TargetOf(s.fi.node);
    PushRefines(s.fi.list, s.fi.node);
    StackStep(stack, t);
    PushedState(s);
    var owed := if s.cm.CmDeleted? && s.cm.cmv == s.cmRv then Some(TargetOf(TopText(s.cm.text))) else None;
    if owed.Some? {
      TopIsListed(s.cm.text);
    }
    PushAllPresent(stack, t, s.w.ds.Keys, owed);
    assert forall x :: BackedEntry(u, x) <==> x in s.w.ds.Keys;
  }

  lemma TopIsListed(text: string)
    ensures TargetOf(TopText(text)) in Decode(Some(text))
  {
    PopRefines(text);
    assert Top(Decode(Some(text))) in Decode(Some(text));
  }

  lemma PushedState(s: Fine)
    requires FiSnapshot(s)
    requires s.fi.FiGot? && s.fi.cmv == s.cmRv && PushText(s.fi.list, s.fi.node) != s.w.updated
    ensures var u := Next(s, FiPush);
            && u.w.updated == PushText(s.w.updated, s.fi.node) && u.w.ds == s.w.ds
            && u.cm == s.cm && u.cmRv == s.cmRv + 1 && u.fi.FiPushed?
  {
  }

  lemma PushBacked(s: Fine)
    requires FiSnapshot(s) && CmSnapshot(s) && Backed(s)
    ensures Backed(Next(s, FiPush)) <==> !Breaks(s, FiPush)
  {
    hide Backed;
    if s.fi.FiGot? && s.fi.cmv == s.cmRv && PushText(s.fi.list, s.fi.node) != s.w.updated {
      PushWritten(s);
    } else {
      UnchangedBacked(s, Next(s, FiPush));
    }
  }

  lemma FiStopBacked(s: Fine)
    requires Backed(s)
    ensures Backed(Next(s, FiStop)) <==> !Breaks(s, FiStop)
  {
    hide WellStacked, Decode;
    var u := Next(s, FiStop);
    assert forall t :: BackedEntry(u, t) <==> t in s.w.ds || CmOwes(s, t);
  }

  lemma FiBacked(s: Fine, step: Step)
    requires FiSnapshot(s) && CmSnapshot(s) && Backed(s) && FiStep(step)
    ensures Backed(Next(s, step)) <==> !Breaks(s, step)
  {
    hide Backed;
    match step
    case FiUserConfig(again) => UserConfigBacked(s, again);
    case FiEnsure => EnsureBacked(s);
    case FiPush => PushBacked(s);
    case FiStop => FiStopBacked(s);
    case _ => UnchangedBacked(s, Next(s, step));
  }

  // ---------- the calls of the ConfigMap reconcile ----------

  lemma SweepBacked(s: Fine, t: Target)
    requires Backed(s)
    ensures Backed(Next(s, CmSweep(t))) <==> !Breaks(s, CmSweep(t))
  {
    hide WellStacked, Decode;
    var u := Next(s, CmSweep(t));
    if s.cm.CmSweeping? && t in s.cm.todo {
      assert forall x :: BackedEntry(u, x) <==> (x in s.w.ds && x != t) || FiOwes(s, x);
    }
  }

  lemma DeleteBacked(s: Fine)
    requires Backed(s)
    ensures Backed(Next(s, CmDelete)) <==> !Breaks(s, CmDelete)
  {
    hide WellStacked, Decode, TopText;
    var u := Next(s, CmDelete);
    if s.cm.CmSaw? {
      var t := TargetOf(TopText(s.cm.text));
      if t in s.w.ds {
        assert forall x :: BackedEntry(u, x) <==>
            (x in s.w.ds && x != t) || (x == t && s.cm.cmv == s.cmRv) || FiOwes(s, x);
      }
    }
  }

  /** Popping the entry whose DaemonSet is gone leaves only entries that are backed. */
  lemma PopBacked(s: Fine)
    requires CmSnapshot(s) && Backed(s)
    ensures Backed(Next(s, CmPop))
  {
    hide Decode, Pop, Top, WellStacked, TopText, PopText;
    var u := Next(s, CmPop);
    if s.cm.CmDeleted? && s.cm.cmv == s.cmRv {
      var stack := Decode(s.w.updated);
      PopRefines(s.cm.text);
      StackStep(stack, All);
      PopHas(stack);
      assert forall x | x in Pop(stack) :: BackedEntry(s, x) && BackedEntry(u, x);
    } else {
      UnchangedBacked(s, u);
    }
  }

  lemma CmStopBacked(s: Fine)
    requires CmSnapshot(s) && Backed(s)
    ensures Backed(Next(s, CmStop)) <==> !Breaks(s, CmStop)
  {
    hide WellStacked, Decode, TopText;
    var u := Next(s, CmStop);
    assert forall x :: BackedEntry(u, x) <==> x in s.w.ds || FiOwes(s, x);
    if s.cm.CmDeleted? && s.cm.cmv == s.cmRv {
      TopIsListed(s.cm.text);
    }
  }

  /** One call, of either reconcile or of anybody else, leaves every listed entry backed exactly
      when it is none of the breaking calls. */
  lemma CallBacked(s: Fine, step: Step)
    requires FiSnapshot(s) && CmSnapshot(s) && Backed(s)
    ensures Backed(Next(s, step)) <==> !Breaks(s, step)
  {
    if FiStep(step) {
      FiBacked(s, step);
    } else {
      match step
      case CmSweep(t) => SweepBacked(s, t);
      case CmDelete => DeleteBacked(s);
      case CmPop => PopBacked(s);
      case CmStop => CmStopBacked(s);
      case Restore(conf) => assert Decode(Next(s, step).w.updated) == [];
      case Ready(t, ready) =>
        assert t in s.w.ds ==> s.w.ds[t := ready].Keys == s.w.ds.Keys;
        UnchangedBacked(s, Next(s, step));
      case _ =>
        hide Backed;
        UnchangedBacked(s, Next(s, step));
    }
  }

  /** In every run from idle controllers and a backed world, every listed entry has its DaemonSet
      or is answered for by a reconcile in progress, up to the first breaking call. */
  lemma {:induction false} RunBacked(run: seq<Fine>, steps: seq<Step>, i: nat)
    requires IsRun(run, steps) && i < |run| && Backed(run[0])
    requires forall k | 0 <= k < i :: !Breaks(run[k], steps[k])
    ensures Backed(run[i])
  {
    hide Next, Breaks, Backed;
    if i > 0 {
      RunBacked(run, steps, i - 1);
      RunSnapshots(run, steps, i - 1);
      CallBacked(run[i - 1], steps[i - 1]);
    }
  }

  /** Once both reconciles are idle again, backed means that every listed entry has its DaemonSet. */
  lemma IdleBacked(s: Fine)
    requires s.fi.FiIdle? && s.cm.CmIdle?
    ensures Backed(s) <==> WellStacked(Decode(s.w.updated)) && forall t :: !HandoffRuns.Stuck(s.w, t)
  {
    assert forall t :: BackedEntry(s, t) <==> t in s.w.ds;
    assert forall t :: HandoffRuns.Stuck(s.w, t) <==> t in Decode(s.w.updated) && t !in s.w.ds;
  }

  // ---------- exactly which calls rescue a stranded entry ----------

  /** The entry is listed and nobody answers for it. */
  predicate Bare(s: Fine, t: Target)
  {
    t in Decode(s.w.updated) && !BackedEntry(s, t)
  }

  /** The calls that change that, read off the state before the call. */
  predicate Rescues(s: Fine, step: Step, t: Target)
  {
    match step
    // a new configuration replaces the list by all nodes, and the reconcile goes on to serve them
    case FiUserConfig(_) =>
      s.fi.FiConf? && NewConfig(s.w) && s.fi.cmv == s.cmRv && (t == All ==> REINIT_ON_FAILED !in s.fi.ann)
    // the target is requested again and gets its DaemonSet
    case FiEnsure =>
      && s.fi.FiDecided? && REINIT_ON_FAILED !in s.fi.ann && (s.fi.hasNew || REINIT in s.fi.ann)
      && var node := NodeToReinit(Lookup(s.fi.ann, REINIT), s.fi.hasNew);
         TargetOf(node) == t && EnsureOutcome(s.w, node).Create?
    // an all-nodes request replaces the list
    case FiPush => t != All && s.fi.FiGot? && s.fi.node == "" && s.fi.cmv == s.cmRv
    case Restore(_) => true
    case _ => false
  }

  lemma UserConfigBare(s: Fine, again: bool, t: Target)
    requires FiSnapshot(s) && CmSnapshot(s) && Bare(s, t)
    ensures Bare(Next(s, FiUserConfig(again)), t) <==> !Rescues(s, FiUserConfig(again), t)
  {
    hide Decode, TopText;
    if s.fi.FiConf? && NewConfig(s.w) && s.fi.cmv == s.cmRv {
      PushRefines(s.fi.list, "");
      assert Next(s, FiUserConfig(again)).cmRv != s.cmRv;
    }
  }

  lemma PushBare(s: Fine, t: Target)
    requires FiSnapshot(s) && CmSnapshot(s) && Bare(s, t)
    ensures Bare(Next(s, FiPush), t) <==> !Rescues(s, FiPush, t)
  {
    hide Decode, Push, PushText, TopText;
    if s.fi.FiGot? && s.fi.cmv == s.cmRv {
      PushRefines(s.fi.list, s.fi.node);
      PushHas(Decode(s.w.updated), TargetOf(s.fi.node), t);
    }
  }

  lemma FiBare(s: Fine, step: Step, t: Target)
    requires FiSnapshot(s) && CmSnapshot(s) && Bare(s, t) && FiStep(step)
    ensures Bare(Next(s, step), t) <==> !Rescues(s, step, t)
  {
    hide Decode, TopText;
    match step
    case FiUserConfig(again) => UserConfigBare(s, again, t);
    case FiPush => PushBare(s, t);
    case FiEnsure =>
    case _ =>
  }

  lemma PopBare(s: Fine, t: Target)
    requires CmSnapshot(s) && Bare(s, t)
    ensures Bare(Next(s, CmPop), t)
  {
    hide Decode, Pop, TopText, PopText;
    if s.cm.CmDeleted? && s.cm.cmv == s.cmRv {
      PopRefines(s.cm.text);
      PopKeeps(Decode(s.w.updated), t);
    }
  }

  /** One call leaves a stranded entry stranded exactly when it is none of the rescuing calls. */
  lemma BareStep(s: Fine, step: Step, t: Target)
    requires FiSnapshot(s) && CmSnapshot(s) && Bare(s, t)
    ensures Bare(Next(s, step), t) <==> !Rescues(s, step, t)
  {
    hide Decode, TopText;
    if FiStep(step) {
      FiBare(s, step, t);
    } else {
      match step
      case CmPop => PopBare(s, t);
      case CmSweep(_) =>
      case CmDelete =>
      case Restore(_) => assert Decode(None) == [];
      case _ =>
    }
  }

  /** In every run it stays stranded up to the first rescuing call. */
  lemma {:induction false} BareUntilRescued(run: seq<Fine>, steps: seq<Step>, i: nat, j: nat, t: Target)
    requires IsRun(run, steps) && i <= j < |run| && Bare(run[i], t)
    requires forall k | i <= k < j :: !Rescues(run[k], steps[k], t)
    ensures Bare(run[j], t)
  {
    hide Next, Rescues, Bare;
    if i < j {
      BareUntilRescued(run, steps, i, j - 1, t);
      RunSnapshots(run, steps, j - 1);
      BareStep(run[j - 1], steps[j - 1], t);
    }
  }

  // ---------- stops that strand an entry, in worlds without a gap ----------

  /** A FileIntegrity reconcile alone, stopping right after it has written a new configuration. */
  lemma StopAfterConfigStrands(s: Fine, again: bool)
    requires s.fi.FiIdle? && s.cm.CmIdle? && s.w.updated.None? && s.w.ds == map[]
    requires NewConfig(s.w) && REINIT_ON_FAILED !in s.w.ann
    ensures Consistent(s.w) && !Gap(s.w)
    ensures var u := Next(FiDecideCalls(s, again), FiStop);
            u.fi.FiIdle? && u.cm.CmIdle? && HandoffRuns.Stuck(u.w, All) && !NewConfig(u.w)
  {
    FiDecides(s, again);
    PushRefines(s.w.updated, "");
    assert Decode(FiDecideCalls(s, again).w.updated) == [All];
  }

  /** A ConfigMap reconcile alone, stopping between deleting the DaemonSet and popping the entry. */
  lemma StopAfterDeleteStrands(s: Fine, node: string)
    requires s.fi.FiIdle? && s.cm.CmIdle? && node != "" && ',' !in node
    requires s.w.updated == Some(node) && s.w.ds == map[Node(node) := true]
    ensures Consistent(s.w)
    ensures var u := Next(Next(Next(Next(Next(s, CmGet), CmList), CmCheck), CmDelete), CmStop);
            u.fi.FiIdle? && u.cm.CmIdle? && HandoffRuns.Stuck(u.w, Node(node))
  {
    SplitOne(node, ',');
    assert Decode(s.w.updated) == [Node(node)];
    hide Decode, Next;
    CmFinds(s, node);
    var saw := Next(Next(Next(s, CmGet), CmList), CmCheck);
    CmDeletes(saw, node);
    CmStops(Next(saw, CmDelete));
  }
}
