/** Exactly which API calls leave a re-init DaemonSet that nobody will complete.

    The other half of the hand-off's consistency: every re-init DaemonSet belongs to a listed
    entry, to a request, or to a FileIntegrity reconcile on its way to listing it. */
module HandoffOrphans {
  import opened Text
  import opened Annotations
  import opened UpdatedList
  import opened Coverage
  import opened Handoff
  import opened HandoffSteps
  import HandoffBacking

  /** The FileIntegrity reconcile in progress has found or made the DaemonSet and will list it. */
  predicate FiHolds(s: Fine, t: Target)
  {
    (s.fi.FiEnsured? || s.fi.FiGot? || s.fi.FiPushed?) && TargetOf(s.fi.node) == t
  }

  /** The list has the target, or all nodes, whose turn sweeps every other DaemonSet. */
  predicate ListHas(v: Option<string>, t: Target)
  {
    t in Decode(v) || All in Decode(v)
  }

  predicate AccountedFor(s: Fine, t: Target)
  {
    ListHas(s.w.updated, t) || FiHolds(s, t) || Lists(Reinit(s.w), NameOf(t))
  }

  ghost predicate Accounted(s: Fine)
  {
    forall t | t in s.w.ds :: AccountedFor(s, t)
  }

  /** The calls after which nobody answers for a DaemonSet, read off the state before the call. */
  predicate Orphans(s: Fine, step: Step, t: Target)
  {
    match step
    // the reconcile that held it ends, by a stop or a conflict, and the request is gone
    case FiStop => FiHolds(s, t) && !ListHas(s.w.updated, t) && !Lists(Reinit(s.w), NameOf(t))
    case FiPush =>
      && s.fi.FiGot? && s.fi.cmv != s.cmRv && FiHolds(s, t)
      && !(s.fi.list.Some? && s.fi.node != "" && s.fi.node in Split(s.fi.list.value, ','))
      && !ListHas(s.w.updated, t) && !Lists(Reinit(s.w), NameOf(t))
    // the request is removed for an entry that was listed when last looked at and is no more
    case FiRemove =>
      && s.fi.FiPushed? && !ListHas(s.w.updated, t)
      && !Lists(if s.fi.rv == s.fiRv then RemoveReinit(Reinit(s.w), s.fi.node) else Reinit(s.w), NameOf(t))
    // its entry, or the all-nodes entry that would have swept it, is popped
    case CmPop =>
      && s.cm.CmDeleted? && s.cm.cmv == s.cmRv && !ListHas(PopText(s.cm.text), t)
      && !FiHolds(s, t) && !Lists(Reinit(s.w), NameOf(t))
    // the list is dropped
    case Restore(_) => !FiHolds(s, t) && !Lists(Reinit(s.w), NameOf(t))
    case _ => false
  }

  ghost predicate OrphansNone(s: Fine, step: Step)
  {
    forall t | t in s.w.ds :: !Orphans(s, step, t)
  }

  // ---------- one call ----------

  lemma PushAccounted(s: Fine, t: Target)
    requires FiSnapshot(s) && AccountedFor(s, t)
    ensures AccountedFor(Next(s, FiPush), t) <==> !Orphans(s, FiPush, t)
  {
    hide Decode, Push, PushText;
    if s.fi.FiGot? && s.fi.cmv == s.cmRv {
      PushRefines(s.fi.list, s.fi.node);
      PushHas(Decode(s.w.updated), TargetOf(s.fi.node), t);
      PushHas(Decode(s.w.updated), TargetOf(s.fi.node), All);
    }
  }

  lemma UserConfigAccounted(s: Fine, again: bool, t: Target)
    requires FiSnapshot(s) && AccountedFor(s, t)
    ensures AccountedFor(Next(s, FiUserConfig(again)), t)
  {
    hide Decode;
    if s.fi.FiConf? {
      PushRefines(s.fi.list, "");
    }
  }

  lemma OnFailedAccounted(s: Fine, t: Target)
    requires FiSnapshot(s) && AccountedFor(s, t) && NoCommas(s.w.failed)
    ensures AccountedFor(Next(s, FiOnFailed), t)
  {
    hide Decode, Lists, AddReinit;
    if s.fi.FiDecided? && s.fi.rv == s.fiRv && Lists(Reinit(s.w), NameOf(t)) {
      AddReinitKeeps(Reinit(s.w), s.w.failed, NameOf(t));
    }
  }

  lemma FiAccounted(s: Fine, step: Step, t: Target)
    requires FiSnapshot(s) && AccountedFor(s, t) && FiStep(step) && Allowed(s, step)
    ensures AccountedFor(Next(s, step), t) <==> !Orphans(s, step, t)
  {
    hide ListHas, Lists;
    match step
    case FiUserConfig(again) => UserConfigAccounted(s, again, t);
    case FiOnFailed => OnFailedAccounted(s, t);
    case FiPush => PushAccounted(s, t);
    case FiRemove => RemoveAccounted(s, t);
    case FiEnsure =>
    case FiStop =>
    case _ =>
  }

  lemma RemoveAccounted(s: Fine, t: Target)
    requires FiSnapshot(s) && AccountedFor(s, t)
    ensures AccountedFor(Next(s, FiRemove), t) <==> !Orphans(s, FiRemove, t)
  {
    hide ListHas;
  }

  /** One call leaves a DaemonSet that exists before and after it accounted for exactly when it is
      none of the orphaning calls. */
  lemma CallAccountedFor(s: Fine, step: Step, t: Target)
    requires FiSnapshot(s) && CmSnapshot(s) && Allowed(s, step)
    requires t in s.w.ds && t in Next(s, step).w.ds && AccountedFor(s, t)
    ensures AccountedFor(Next(s, step), t) <==> !Orphans(s, step, t)
  {
    hide ListHas, Lists;
    if FiStep(step) {
      FiAccounted(s, step, t);
    } else {
      match step
      case CmSweep(_) =>
      case CmDelete =>
      case CmPop =>
      case Request(_) =>
      case Restore(_) => assert !ListHas(None, t) by { RestoredHasNothing(t); }
      case _ =>
    }
  }

  lemma RestoredHasNothing(t: Target)
    ensures !ListHas(None, t)
  {
  }

  /** A DaemonSet that a call brings about is held by the reconcile that made it. */
  lemma NewAccountedFor(s: Fine, step: Step, t: Target)
    requires t !in s.w.ds && t in Next(s, step).w.ds
    ensures FiHolds(Next(s, step), t)
  {
    DsAppears(s, step, t);
  }

  /** The orphaning calls delete no DaemonSet. */
  lemma OrphansKeepsDs(s: Fine, step: Step, t: Target)
    requires Orphans(s, step, t)
    ensures Next(s, step).w.ds == s.w.ds
  {
    hide ListHas, Lists;
    match step
    case FiPush =>
    case FiRemove =>
    case CmPop =>
    case _ =>
  }

  /** One call, of either reconcile or of anybody else, leaves every DaemonSet accounted for exactly
      when it orphans none. */
  lemma CallAccounted(s: Fine, step: Step)
    requires FiSnapshot(s) && CmSnapshot(s) && Allowed(s, step) && Accounted(s)
    ensures Accounted(Next(s, step)) <==> OrphansNone(s, step)
  {
    hide Next, AccountedFor, Orphans;
    var u := Next(s, step);
    forall t | t in s.w.ds && t in u.w.ds
      ensures AccountedFor(u, t) <==> !Orphans(s, step, t)
    {
      CallAccountedFor(s, step, t);
    }
    forall t | t !in s.w.ds && t in u.w.ds
      ensures AccountedFor(u, t)
    {
      NewAccountedFor(s, step, t);
      HeldIsAccountedFor(u, t);
    }
    forall t | Orphans(s, step, t)
      ensures u.w.ds == s.w.ds
    {
      OrphansKeepsDs(s, step, t);
    }
  }

  lemma HeldIsAccountedFor(s: Fine, t: Target)
    requires FiHolds(s, t)
    ensures AccountedFor(s, t)
  {
  }

  /** In every run from idle controllers every re-init DaemonSet stays accounted for, up to the first
      orphaning call. */
  lemma {:induction false} RunAccounted(run: seq<Fine>, steps: seq<Step>, i: nat)
    requires IsRun(run, steps) && i < |run| && Accounted(run[0])
    requires forall k | 0 <= k < i :: OrphansNone(run[k], steps[k])
    ensures Accounted(run[i])
  {
    hide Next, Orphans, Accounted;
    if i > 0 {
      RunAccounted(run, steps, i - 1);
      RunSnapshots(run, steps, i - 1);
      CallAccounted(run[i - 1], steps[i - 1]);
    }
  }

  /** With both reconciles idle and no request left, backed entries and accounted DaemonSets are
      together the consistency of the hand-off. */
  lemma IdleConsistent(s: Fine)
    requires s.fi.FiIdle? && s.cm.CmIdle? && Reinit(s.w).None?
    ensures HandoffBacking.Backed(s) && Accounted(s) <==> Consistent(s.w)
  {
    hide Decode, WellStacked;
    assert forall t :: HandoffBacking.BackedEntry(s, t) <==> t in s.w.ds;
    assert forall t :: AccountedFor(s, t) <==> t in Decode(s.w.updated) || All in Decode(s.w.updated);
  }

  // ---------- an interleaving that orphans a DaemonSet ----------

  /** The ConfigMap reconcile has deleted the DaemonSet of a ready node and has yet to pop it. */
  function Deleted(s: Fine): Fine
  {
    Next(Next(Next(Next(s, CmGet), CmList), CmCheck), CmDelete)
  }

  /** A FileIntegrity reconcile makes the DaemonSet again and still finds the entry listed. */
  function Remade(s: Fine): Fine
  {
    Next(Next(FiDecideCalls(s, false), FiEnsure), FiGetLatest)
  }

  /** The entry is popped; the FileIntegrity reconcile has nothing to list and removes the request. */
  function Dropped(s: Fine): Fine
  {
    Next(Next(Next(s, CmPop), FiPush), FiRemove)
  }

  lemma DeletedState(s: Fine, node: string)
    requires RequestedAgain(s.w, node) && s.cm.CmIdle?
    ensures Deleted(s) == s.(w := s.w.(ds := map[]), cm := CmDeleted(node, s.cmRv))
  {
    hide Next;
    CmFinds(s, node);
    CmDeletes(Next(Next(Next(s, CmGet), CmList), CmCheck), node);
    assert s.w.ds - {Node(node)} == map[];
  }

  lemma RemadeState(s: Fine, node: string)
    requires s.fi.FiIdle? && s.w.desired.None? && s.w.ds == map[] && s.w.ann == map[REINIT := node]
    requires node != "" && ',' !in node && node in s.w.nodes && node in s.w.labelled
    ensures Remade(s) == s.(w := s.w.(ds := map[Node(node) := false]),
                            fi := FiGot(s.w.ann, s.fiRv, node, s.w.updated, s.cmRv))
  {
    KeysDiffer();
    SplitOne(node, ',');
    hide FiDecideCalls;
    FiDecides(s, false);
    var d := FiDecideCalls(s, false);
    var e := Next(d, FiEnsure);
    assert e.fi == FiEnsured(s.w.ann, s.fiRv, node);
    assert e.w.ds == map[Node(node) := false];
  }

  lemma DroppedState(s: Fine, node: string)
    requires s.cm == CmDeleted(node, s.cmRv) && node != "" && ',' !in node
    requires s.w.ann == map[REINIT := node] && s.fi == FiGot(s.w.ann, s.fiRv, node, Some(node), s.cmRv)
    ensures var u := Dropped(s);
            u.w == s.w.(updated := None, ann := map[]) && u.fi.FiIdle? && u.cm.CmIdle?
  {
    hide Next;
    var p := Next(s, CmPop);
    PoppedState(s, node);
    NothingToPush(p, node);
    RemovedState(Next(p, FiPush), node);
  }

  lemma PoppedState(s: Fine, node: string)
    requires s.cm == CmDeleted(node, s.cmRv) && node != "" && ',' !in node
    ensures var u := Next(s, CmPop);
            u.w == s.w.(updated := None) && u.fi == s.fi && u.cm.CmIdle? && u.fiRv == s.fiRv
  {
    SplitOne(node, ',');
  }

  lemma NothingToPush(s: Fine, node: string)
    requires s.fi.FiGot? && s.fi.node == node != "" && ',' !in node && s.fi.list == Some(node)
    ensures Next(s, FiPush) == s.(fi := FiPushed(s.fi.ann, s.fi.rv, node))
  {
    SplitOne(node, ',');
  }

  lemma RemovedState(s: Fine, node: string)
    requires s.w.ann == map[REINIT := node] && node != "" && ',' !in node
    requires s.fi == FiPushed(s.w.ann, s.fiRv, node)
    ensures var u := Next(s, FiRemove); u.w == s.w.(ann := map[]) && u.fi.FiIdle? && u.cm == s.cm
  {
    SplitOne(node, ',');
    assert map[REINIT := node] - {REINIT} == map[];
  }

  /** From a consistent world, with no stop and no conflict: a node is requested again while its
      earlier request is completed. Its new DaemonSet is made between the delete and the pop, the
      entry is popped, and the request is removed, so that the DaemonSet is left to nobody. */
  lemma InterleavingOrphans(s: Fine, node: string)
    requires RequestedAgain(s.w, node) && s.fi.FiIdle? && s.cm.CmIdle?
    requires node in s.w.nodes && node in s.w.labelled
    ensures Consistent(s.w)
    ensures var u := Dropped(Remade(Deleted(s)));
            && u.fi.FiIdle? && u.cm.CmIdle? && u.w.updated.None? && Reinit(u.w).None?
            && u.w.ds == map[Node(node) := false] && !AccountedFor(u, Node(node))
  {
    hide Deleted, Remade, Dropped;
    SplitOne(node, ',');
    assert Decode(s.w.updated) == [Node(node)];
    DeletedState(s, node);
    RemadeState(Deleted(s), node);
    DroppedState(Remade(Deleted(s)), node);
  }
}
