/** The hand-off split at the API calls of both reconcilers.

    Each controller works on one object at a time, holding what it fetched. A
    write carries the resource version that was fetched and is rejected as a
    conflict when the object has changed since. Between any two calls the other
    controller, users and the cluster may act, and a reconcile may stop. */
module HandoffSteps {
  import opened Text
  import opened Annotations
  import opened UpdatedList
  import opened Coverage
  import opened Handoff
  import HandoffRuns

  /** A FileIntegrity reconcile in progress; `ann` and `rv` are the fetched instance. */
  datatype FiTask =
    | FiIdle
    | FiRead(ann: Ann, rv: nat)
    | FiConf(ann: Ann, rv: nat, list: Option<string>, conf: string, cmv: nat)
    | FiDecided(ann: Ann, rv: nat, hasNew: bool)
    | FiEnsured(ann: Ann, rv: nat, node: string)
    | FiGot(ann: Ann, rv: nat, node: string, list: Option<string>, cmv: nat)
    | FiPushed(ann: Ann, rv: nat, node: string)

  /** A ConfigMap reconcile in progress; `text` and `cmv` are the fetched ConfigMap. */
  datatype CmTask =
    | CmIdle
    | CmGot(text: string, cmv: nat)
    | CmSweeping(text: string, cmv: nat, todo: set<Target>)
    | CmSaw(text: string, cmv: nat)
    | CmDeleted(text: string, cmv: nat)

  datatype Fine = Fine(w: World, fiRv: nat, cmRv: nat, fi: FiTask, cm: CmTask)

  datatype Step =
    | FiGet | FiGetConf
    | FiUserConfig(again: bool)  // whether the configuration is read once more to be compared with the default
    | FiOnFailed | FiEnsure | FiGetLatest | FiPush | FiRemove | FiStop
    | CmGet | CmList | CmSweep(t: Target) | CmCheck | CmDelete | CmPop | CmStop
    | Request(ann: Ann)
    | Environment(desired: Option<string>, failed: seq<string>, nodes: set<string>, labelled: set<string>)
    | Ready(t: Target, ready: bool)
    | Restore(conf: string)

  // ---------- API writes ----------

  function SetFi(s: Fine, ann: Ann): Fine
  {
    s.(w := s.w.(ann := ann), fiRv := if ann == s.w.ann then s.fiRv else s.fiRv + 1)
  }

  function SetCm(s: Fine, updated: Option<string>, conf: string): Fine
  {
    s.(w := s.w.(updated := updated, conf := conf),
       cmRv := if updated == s.w.updated && conf == s.w.conf then s.cmRv else s.cmRv + 1)
  }

  // ---------- one call of either reconciler ----------

  function FiNext(s: Fine, step: Step): Fine
  {
    match (step, s.fi)
    case (FiGet, FiIdle) => s.(fi := FiRead(s.w.ann, s.fiRv))
    case (FiGetConf, FiRead(ann, rv)) => s.(fi := FiConf(ann, rv, s.w.updated, s.w.conf, s.cmRv))
    case (FiUserConfig(again), FiConf(ann, rv, list, conf, cmv)) =>
      var current := if again then s.w.conf else conf;
      if s.w.desired.None? || s.w.desired.value == current then s.(fi := FiDecided(ann, rv, false))
      else if cmv != s.cmRv then s.(fi := FiIdle)
      else SetCm(s, PushText(list, ""), s.w.desired.value).(fi := FiDecided(ann, rv, true))
    case (FiOnFailed, FiDecided(ann, rv, _)) =>
      if REINIT_ON_FAILED !in ann then s
      else if rv != s.fiRv then s.(fi := FiIdle)
      else SetFi(s, OnFailedExpanded(ann, s.w.failed)).(fi := FiIdle)
    case (FiEnsure, FiDecided(ann, rv, hasNew)) =>
      if REINIT_ON_FAILED in ann || (!hasNew && REINIT !in ann) then s
      else
        var node := NodeToReinit(Lookup(ann, REINIT), hasNew);
        if EnsureOutcome(s.w, node).NoHostname? then s.(fi := FiIdle)
        else s.(w := WithDs(s.w, node), fi := FiEnsured(ann, rv, node))
    case (FiGetLatest, FiEnsured(ann, rv, node)) => s.(fi := FiGot(ann, rv, node, s.w.updated, s.cmRv))
    case (FiPush, FiGot(ann, rv, node, list, cmv)) =>
      if list.Some? && node != "" && node in Split(list.value, ',') then s.(fi := FiPushed(ann, rv, node))
      else if cmv != s.cmRv then s.(fi := FiIdle)
      else SetCm(s, PushText(list, node), s.w.conf).(fi := FiPushed(ann, rv, node))
    case (FiRemove, FiPushed(ann, rv, node)) =>
      if !Lists(Lookup(ann, REINIT), node) || rv != s.fiRv then s.(fi := FiIdle)
      else SetFi(s, Store(ann, REINIT, RemoveReinit(Lookup(ann, REINIT), node))).(fi := FiIdle)
    case (FiStop, _) => s.(fi := FiIdle)
    case _ => s
  }

  function CmNext(s: Fine, step: Step): Fine
  {
    match (step, s.cm)
    case (CmGet, CmIdle) => if s.w.updated.None? then s else s.(cm := CmGot(s.w.updated.value, s.cmRv))
    case (CmList, CmGot(text, cmv)) =>
      s.(cm := CmSweeping(text, cmv, if TopText(text) == "" then s.w.ds.Keys - {All} else {}))
    case (CmSweep(t), CmSweeping(text, cmv, todo)) =>
      if t !in todo then s
      else s.(w := s.w.(ds := s.w.ds - {t}), cm := CmSweeping(text, cmv, todo - {t}))
    case (CmCheck, CmSweeping(text, cmv, todo)) =>
      if todo != {} then s
      else
        var t := TargetOf(TopText(text));
        if t in s.w.ds && s.w.ds[t] then s.(cm := CmSaw(text, cmv)) else s.(cm := CmIdle)
    case (CmDelete, CmSaw(text, cmv)) =>
      var t := TargetOf(TopText(text));
      if t !in s.w.ds then s.(cm := CmIdle)
      else s.(w := s.w.(ds := s.w.ds - {t}), cm := CmDeleted(text, cmv))
    case (CmPop, CmDeleted(text, cmv)) =>
      if cmv != s.cmRv then s.(cm := CmIdle)
      else SetCm(s, PopText(text), s.w.conf).(cm := CmIdle)
    case (CmStop, _) => s.(cm := CmIdle)
    case _ => s
  }

  function Next(s: Fine, step: Step): Fine
  {
    match step
    case Request(ann) => SetFi(s, ann)
    case Environment(desired, failed, nodes, labelled) =>
      s.(w := s.w.(desired := desired, failed := failed, nodes := nodes, labelled := labelled))
    case Ready(t, ready) => if t in s.w.ds then s.(w := s.w.(ds := s.w.ds[t := ready])) else s
    case Restore(conf) => SetCm(s, None, conf)
    case _ => if FiStep(step) then FiNext(s, step) else CmNext(s, step)
  }

  predicate FiStep(step: Step)
  {
    step.FiGet? || step.FiGetConf? || step.FiUserConfig? || step.FiOnFailed? || step.FiEnsure? ||
    step.FiGetLatest? || step.FiPush? || step.FiRemove? || step.FiStop?
  }

  ghost predicate NoCommas(names: seq<string>)
  {
    forall x | x in names :: ',' !in x
  }

  /** Others only add requests, and node names contain no comma. */
  ghost predicate Allowed(s: Fine, step: Step)
  {
    && NoCommas(s.w.failed)
    && (step.Environment? ==> NoCommas(step.failed))
    && (step.Request? ==> forall n | Lists(Reinit(s.w), n) :: Lists(Lookup(step.ann, REINIT), n))
  }

  // ---------- what was fetched is current or recognisably old ----------

  ghost predicate FiSnapshot(s: Fine)
  {
    && (!s.fi.FiIdle? ==> s.fi.rv <= s.fiRv && (s.fi.rv == s.fiRv ==> s.fi.ann == s.w.ann))
    && (s.fi.FiConf? || s.fi.FiGot? ==> s.fi.cmv <= s.cmRv && (s.fi.cmv == s.cmRv ==> s.fi.list == s.w.updated))
    && (s.fi.FiConf? && s.fi.cmv == s.cmRv ==> s.fi.conf == s.w.conf)
    && (s.fi.FiEnsured? || s.fi.FiGot? || s.fi.FiPushed? ==>
          ',' !in s.fi.node && (Lookup(s.fi.ann, REINIT) == Some("") ==> s.fi.node == ""))
  }

  ghost predicate CmSnapshot(s: Fine)
  {
    !s.cm.CmIdle? ==> s.cm.cmv <= s.cmRv && (s.cm.cmv == s.cmRv ==> s.w.updated == Some(s.cm.text))
  }

  lemma FiSnapshotStep(s: Fine, step: Step)
    requires FiSnapshot(s) && CmSnapshot(s) && FiStep(step)
    ensures FiSnapshot(FiNext(s, step)) && CmSnapshot(FiNext(s, step))
  {
    match step
    case FiGetConf =>
    case FiUserConfig(_) =>
    case FiEnsure =>
      if s.fi.FiDecided? {
        NodeHasNoComma(Lookup(s.fi.ann, REINIT), s.fi.hasNew);
      }
    case FiGetLatest =>
    case FiPush =>
    case _ =>
  }

  lemma SnapshotStep(s: Fine, step: Step)
    requires FiSnapshot(s) && CmSnapshot(s)
    ensures FiSnapshot(Next(s, step)) && CmSnapshot(Next(s, step))
  {
    hide FiNext, TopText, PopText;
    if FiStep(step) {
      FiSnapshotStep(s, step);
    } else {
      match step
      case CmGet =>
      case CmSweep(_) =>
      case CmPop =>
      case Request(_) =>
      case Restore(_) =>
      case _ =>
    }
  }

  // ---------- no request is lost ----------

  predicate Covered(s: Fine, n: string)
  {
    HandoffRuns.Covered(s.w, n)
  }

  /** The request for `n` is on its way, and a FileIntegrity reconcile about to drop it
      from the instance has it covered by the ConfigMap's list. */
  ghost predicate Carried(s: Fine, n: string)
  {
    && Covered(s, n)
    && (s.fi.FiGot? && s.fi.rv == s.fiRv && ListCovers(s.fi.list, n) ==> ListCovers(s.w.updated, n))
    && (s.fi.FiPushed? && s.fi.rv == s.fiRv && Lists(Lookup(s.fi.ann, REINIT), n) ==>
          Lists(RemoveReinit(Lookup(s.fi.ann, REINIT), s.fi.node), n) || ListCovers(s.w.updated, n))
  }

  /** The pop that ends a request: the entry covers the node and the write is accepted. */
  predicate Serving(s: Fine, step: Step, n: string)
  {
    && step.CmPop? && s.cm.CmDeleted? && s.cm.cmv == s.cmRv
    && Covers(TargetOf(TopText(s.cm.text)), n)
  }

  /** Only a serving pop or a restore of a damaged ConfigMap uncovers a node on the ConfigMap's list. */
  lemma ListKeeps(s: Fine, step: Step, n: string)
    requires FiSnapshot(s) && CmSnapshot(s)
    requires ListCovers(s.w.updated, n) && !Serving(s, step, n) && !step.Restore?
    ensures ListCovers(Next(s, step).w.updated, n)
  {
    hide ListCovers, Covers;
    match step
    case FiUserConfig(_) =>
      if s.fi.FiConf? {
        PushCovers(s.fi.list, "", n);
      }
    case FiPush =>
      if s.fi.FiGot? {
        PushCovers(s.fi.list, s.fi.node, n);
      }
    case CmPop =>
      if s.cm.CmDeleted? && s.cm.cmv == s.cmRv {
        PopCovers(s.cm.text, n);
      }
    case _ =>
  }

  /** After a push, whatever the coming removal drops is covered. */
  lemma PushCarries(s: Fine, n: string)
    requires FiSnapshot(s) && s.fi.FiGot? && n != ""
    requires s.fi.rv == s.fiRv && ListCovers(s.fi.list, n) ==> ListCovers(s.w.updated, n)
    requires Lists(Lookup(s.fi.ann, REINIT), n)
    ensures var u := Next(s, FiPush);
            u.fi.FiPushed? && u.fi.rv == u.fiRv ==>
              Lists(RemoveReinit(Lookup(s.fi.ann, REINIT), s.fi.node), n) || ListCovers(u.w.updated, n)
  {
    RemoveCovers(Lookup(s.fi.ann, REINIT), s.fi.node, n);
    PushCovers(s.fi.list, s.fi.node, n);
    DecodeHas(s.fi.list, s.fi.node);
  }

  lemma UserConfigKeepsCarried(s: Fine, again: bool, n: string)
    requires Carried(s, n)
    requires ListCovers(s.w.updated, n) ==> ListCovers(Next(s, FiUserConfig(again)).w.updated, n)
    ensures Carried(Next(s, FiUserConfig(again)), n)
  {
    hide ListCovers, Lists, PushText, RemoveReinit;
  }

  lemma EnsureKeepsCarried(s: Fine, n: string)
    requires Carried(s, n)
    ensures Carried(Next(s, FiEnsure), n)
  {
    hide ListCovers, Lists, RemoveReinit;
  }

  lemma GetLatestKeepsCarried(s: Fine, n: string)
    requires Carried(s, n)
    ensures Carried(Next(s, FiGetLatest), n)
  {
    hide ListCovers, Lists, RemoveReinit;
  }

  lemma PushKeepsCarried(s: Fine, n: string)
    requires FiSnapshot(s) && Carried(s, n) && n != ""
    requires ListCovers(s.w.updated, n) ==> ListCovers(Next(s, FiPush).w.updated, n)
    ensures Carried(Next(s, FiPush), n)
  {
    hide ListCovers, Lists, PushText, RemoveReinit;
    if s.fi.FiGot? && Lists(Lookup(s.fi.ann, REINIT), n) {
      PushCarries(s, n);
    }
  }

  lemma RemoveKeepsCarried(s: Fine, n: string)
    requires FiSnapshot(s) && Carried(s, n)
    ensures Carried(Next(s, FiRemove), n)
  {
    hide ListCovers, Lists, RemoveReinit;
  }

  lemma OnFailedKeepsCarried(s: Fine, n: string)
    requires FiSnapshot(s) && Carried(s, n) && NoCommas(s.w.failed)
    ensures Carried(Next(s, FiOnFailed), n)
  {
    hide ListCovers, Lists, AddReinit;
    if s.fi.FiDecided? && Lists(Lookup(s.fi.ann, REINIT), n) {
      AddReinitKeeps(Lookup(s.fi.ann, REINIT), s.w.failed, n);
    }
  }

  lemma FiKeepsCarried(s: Fine, step: Step, n: string)
    requires FiSnapshot(s) && CmSnapshot(s) && Carried(s, n) && n != ""
    requires FiStep(step) && Allowed(s, step)
    ensures Carried(Next(s, step), n)
  {
    if ListCovers(s.w.updated, n) {
      ListKeeps(s, step, n);
    }
    hide ListCovers, Lists, PushText, RemoveReinit, AddReinit;
    match step
    case FiUserConfig(again) => UserConfigKeepsCarried(s, again, n);
    case FiOnFailed => OnFailedKeepsCarried(s, n);
    case FiPush => PushKeepsCarried(s, n);
    case FiRemove => RemoveKeepsCarried(s, n);
    case FiEnsure => EnsureKeepsCarried(s, n);
    case FiGetLatest => GetLatestKeepsCarried(s, n);
    case _ =>
  }

  lemma StepKeepsCarried(s: Fine, step: Step, n: string)
    requires FiSnapshot(s) && CmSnapshot(s) && Carried(s, n) && n != ""
    requires Allowed(s, step) && !step.Restore? && !Serving(s, step, n)
    ensures Carried(Next(s, step), n)
  {
    if FiStep(step) {
      FiKeepsCarried(s, step, n);
    } else {
      if ListCovers(s.w.updated, n) {
        ListKeeps(s, step, n);
      }
      hide ListCovers, Lists, FiNext, TopText, PopText, RemoveReinit;
    }
  }

  // ---------- runs ----------

  /** A run from idle controllers. */
  ghost predicate IsRun(run: seq<Fine>, steps: seq<Step>)
  {
    && |run| == |steps| + 1
    && run[0].fi.FiIdle? && run[0].cm.CmIdle?
    && forall i | 0 <= i < |steps| :: Allowed(run[i], steps[i]) && run[i + 1] == Next(run[i], steps[i])
  }

  lemma {:induction false} RunSnapshots(run: seq<Fine>, steps: seq<Step>, i: nat)
    requires IsRun(run, steps) && i < |run|
    ensures FiSnapshot(run[i]) && CmSnapshot(run[i])
  {
    if i > 0 {
      RunSnapshots(run, steps, i - 1);
      SnapshotStep(run[i - 1], steps[i - 1]);
    }
  }

  /** A node that has just become listed is carried: whatever was fetched before is now old. */
  lemma NewRequestCarried(s: Fine, step: Step, n: string)
    requires FiSnapshot(s) && CmSnapshot(s)
    requires !Lists(Reinit(s.w), n) && Lists(Reinit(Next(s, step).w), n)
    ensures Carried(Next(s, step), n)
  {
    hide ListCovers, PushText, RemoveReinit, AddReinit;
    match step
    case FiOnFailed =>
    case FiUserConfig(_) =>
    case FiPush =>
    case FiRemove =>
    case Request(_) =>
    case _ =>
  }

  lemma {:induction false} CarriedUntilServed(run: seq<Fine>, steps: seq<Step>, i: nat, j: nat, n: string)
    returns (k: nat)
    requires IsRun(run, steps) && i <= j < |run| && n != ""
    requires Carried(run[i], n)
    requires forall m | i <= m < j :: !steps[m].Restore?
    ensures Carried(run[j], n) || (i <= k < j && Serving(run[k], steps[k], n))
    decreases j - i
  {
    k := i;
    if i < j && !Serving(run[i], steps[i], n) {
      RunSnapshots(run, steps, i);
      StepKeepsCarried(run[i], steps[i], n);
      k := CarriedUntilServed(run, steps, i + 1, j, n);
    }
  }

  /** The reconcile has seen the DaemonSet of its entry ready. */
  predicate HasSeen(task: CmTask)
  {
    task.CmSaw? || task.CmDeleted?
  }

  lemma SeenByCheck(s: Fine, step: Step)
    requires HasSeen(Next(s, step).cm)
    ensures var text := Next(s, step).cm.text;
            if HasSeen(s.cm) then s.cm.text == text
            else
              && step.CmCheck? && s.cm.CmSweeping? && s.cm.text == text
              && TargetOf(TopText(text)) in s.w.ds && s.w.ds[TargetOf(TopText(text))]
  {
    match step
    case CmCheck =>
    case CmDelete =>
    case CmPop =>
    case _ =>
  }

  /** A pop is reached only through a check, in the same reconcile, that saw the DaemonSet
      of the popped entry present and ready. */
  lemma {:induction false} PopSawReady(run: seq<Fine>, steps: seq<Step>, k: nat) returns (c: nat)
    requires IsRun(run, steps) && k < |run| && HasSeen(run[k].cm)
    ensures c < k && steps[c].CmCheck? && run[c].cm.CmSweeping? && run[c].cm.text == run[k].cm.text
    ensures var t := TargetOf(TopText(run[k].cm.text)); t in run[c].w.ds && run[c].w.ds[t]
    ensures forall m | c < m <= k :: HasSeen(run[m].cm) && run[m].cm.text == run[k].cm.text
    decreases k
  {
    hide Next;
    SeenByCheck(run[k - 1], steps[k - 1]);
    if HasSeen(run[k - 1].cm) {
      c := PopSawReady(run, steps, k - 1);
    } else {
      c := k - 1;
    }
  }

  /** No request is lost: in every interleaving of the calls, with conflicts and stops
      anywhere, a node that became listed, or was listed at the start, is still on the
      FileIntegrity's list or covered by the ConfigMap's list, unless since then an entry
      covering it was popped by a reconcile that had seen that entry's DaemonSet ready. It saw
      that after the request, unless at the time of the request it had seen it already. Only a
      restore of a damaged ConfigMap is left out. */
  lemma NoRequestLost(run: seq<Fine>, steps: seq<Step>, i: nat, j: nat, n: string) returns (k: nat, c: nat)
    requires IsRun(run, steps) && i <= j < |run| && n != ""
    requires Lists(Reinit(run[i].w), n) && (i == 0 || !Lists(Reinit(run[i - 1].w), n))
    requires forall m | i <= m < j :: !steps[m].Restore?
    requires !Covered(run[j], n)
    ensures c < k && i <= k < j && Serving(run[k], steps[k], n)
    ensures steps[c].CmCheck?
    ensures var t := TargetOf(TopText(run[k].cm.text)); Covers(t, n) && t in run[c].w.ds && run[c].w.ds[t]
    ensures c < i ==> HasSeen(run[i].cm) && run[i].cm.text == run[k].cm.text
  {
    if i > 0 {
      RunSnapshots(run, steps, i - 1);
      NewRequestCarried(run[i - 1], steps[i - 1], n);
    }
    k := CarriedUntilServed(run, steps, i, j, n);
    c := PopSawReady(run, steps, k);
  }

  /** An accepted expansion of re-init-on-failed lists the failed nodes as of that call. */
  lemma OnFailedCall(s: Fine, n: string)
    requires FiSnapshot(s) && s.fi.FiDecided? && REINIT_ON_FAILED in s.fi.ann && s.fi.rv == s.fiRv
    requires forall x | x in s.w.failed :: x != "" && ',' !in x
    ensures var u := Next(s, FiOnFailed);
            && u.fi.FiIdle? && REINIT_ON_FAILED !in u.w.ann
            && (Lists(Reinit(u.w), n) <==>
                if REINIT !in s.w.ann then n in s.w.failed
                else s.w.ann[REINIT] == "" || n in Split(s.w.ann[REINIT], ',') ||
                     IsLastNew(s.w.ann[REINIT], s.w.failed, n))
            && u.w == s.w.(ann := u.w.ann)
            && u.w.ann - {REINIT, REINIT_ON_FAILED} == s.w.ann - {REINIT, REINIT_ON_FAILED}
  {
    hide IsLastNew, OnFailedExpanded, Lists;
    OnFailedLists(s.w.ann, s.w.failed, n);
  }

  /** So from there on no failed node that it lists is lost either: with no list before, that is
      every failed node. */
  lemma FailedNodeNotLost(run: seq<Fine>, steps: seq<Step>, i: nat, j: nat, n: string) returns (k: nat, c: nat)
    requires IsRun(run, steps) && i < j < |run| && n in run[i].w.failed && "" !in run[i].w.failed
    requires steps[i].FiOnFailed? && run[i].fi.FiDecided? && REINIT_ON_FAILED in run[i].fi.ann
    requires run[i].fi.rv == run[i].fiRv
    requires REINIT in run[i].w.ann ==> IsLastNew(run[i].w.ann[REINIT], run[i].w.failed, n)
    requires forall m | i <= m < j :: !steps[m].Restore?
    requires !Covered(run[j], n)
    ensures c < k && i < k < j && Serving(run[k], steps[k], n) && steps[c].CmCheck?
    ensures var t := TargetOf(TopText(run[k].cm.text)); Covers(t, n) && t in run[c].w.ds && run[c].w.ds[t]
    ensures c <= i ==> HasSeen(run[i + 1].cm) && run[i + 1].cm.text == run[k].cm.text
  {
    hide IsLastNew, Next;
    RunSnapshots(run, steps, i);
    OnFailedCall(run[i], n);
    k := CarriedUntilServed(run, steps, i + 1, j, n);
    c := PopSawReady(run, steps, k);
  }

  // ---------- which DaemonSet serves a request ----------

  predicate IsReady(s: Fine, t: Target)
  {
    t in s.w.ds && s.w.ds[t]
  }

  /** A DaemonSet comes to exist only by createReinitDaemonSet, and is not ready then. */
  lemma DsAppears(s: Fine, step: Step, t: Target)
    requires t !in s.w.ds && t in Next(s, step).w.ds
    ensures step.FiEnsure? && !IsReady(Next(s, step), t)
  {
    match step
    case FiPush =>
    case CmPop =>
    case CmSweep(_) =>
    case _ =>
  }

  /** It becomes ready only by itself. */
  lemma DsBecomesReady(s: Fine, step: Step, t: Target)
    requires !IsReady(s, t) && IsReady(Next(s, step), t)
    ensures step == Ready(t, true) && t in s.w.ds
  {
    match step
    case FiEnsure =>
    case FiPush =>
    case CmPop =>
    case CmSweep(_) =>
    case _ =>
  }

  lemma {:induction false} MadeBetween(run: seq<Fine>, steps: seq<Step>, i: nat, j: nat, t: Target) returns (m: nat)
    requires IsRun(run, steps) && i <= j < |run|
    requires t !in run[i].w.ds && t in run[j].w.ds
    ensures i <= m < j && steps[m].FiEnsure? && t !in run[m].w.ds && t in run[m + 1].w.ds
    decreases j
  {
    hide Next;
    if t in run[j - 1].w.ds {
      m := MadeBetween(run, steps, i, j - 1, t);
    } else {
      DsAppears(run[j - 1], steps[j - 1], t);
      m := j - 1;
    }
  }

  lemma {:induction false} ReadiedBetween(run: seq<Fine>, steps: seq<Step>, i: nat, j: nat, t: Target) returns (r: nat)
    requires IsRun(run, steps) && i <= j < |run|
    requires !IsReady(run[i], t) && IsReady(run[j], t)
    ensures i <= r < j && steps[r] == Ready(t, true) && t in run[r].w.ds
    decreases j
  {
    hide Next;
    if IsReady(run[j - 1], t) {
      r := ReadiedBetween(run, steps, i, j - 1, t);
    } else {
      DsBecomesReady(run[j - 1], steps[j - 1], t);
      r := j - 1;
    }
  }

  /** A request made while no DaemonSet covers the node and no ConfigMap reconcile has seen one ready
      is served by a DaemonSet of its own: made after the request, ready after that, seen ready
      after that, and only then popped. */
  lemma ServedAfresh(run: seq<Fine>, steps: seq<Step>, i: nat, j: nat, n: string)
    returns (t: Target, m: nat, r: nat, c: nat, k: nat)
    requires IsRun(run, steps) && i <= j < |run| && n != ""
    requires Lists(Reinit(run[i].w), n) && (i == 0 || !Lists(Reinit(run[i - 1].w), n))
    requires forall m | i <= m < j :: !steps[m].Restore?
    requires !Covered(run[j], n)
    requires All !in run[i].w.ds && Node(n) !in run[i].w.ds && !HasSeen(run[i].cm)
    ensures i <= m < r < c < k < j && Covers(t, n)
    ensures steps[m].FiEnsure? && t !in run[m].w.ds && t in run[m + 1].w.ds
    ensures steps[r] == Ready(t, true) && steps[c].CmCheck? && IsReady(run[c], t)
    ensures Serving(run[k], steps[k], n) && t == TargetOf(TopText(run[k].cm.text))
  {
    hide Next;
    k, c := NoRequestLost(run, steps, i, j, n);
    t := TargetOf(TopText(run[k].cm.text));
    r := ReadiedBetween(run, steps, i, c, t);
    m := MadeBetween(run, steps, i, r, t);
  }

  /** The exception is needed: after a restore exactly the nodes still on the FileIntegrity's own
      list are covered; what was on the ConfigMap's list is gone. */
  lemma RestoreKeepsListedOnly(s: Fine, conf: string, n: string)
    ensures Covered(Next(s, Restore(conf)), n) <==> Lists(Reinit(s.w), n)
  {
  }

  lemma CmLists(s: Fine)
    requires s.cm.CmIdle? && s.w.updated.Some?
    ensures var text := s.w.updated.value;
            Next(Next(s, CmGet), CmList) ==
              s.(cm := CmSweeping(text, s.cmRv, if TopText(text) == "" then s.w.ds.Keys - {All} else {}))
  {
    hide TopText;
    assert Next(s, CmGet) == s.(cm := CmGot(s.w.updated.value, s.cmRv));
  }

  /** A ConfigMap reconcile up to the check, for a single node that is ready. */
  lemma CmFinds(s: Fine, node: string)
    requires s.cm.CmIdle? && s.w.updated == Some(node) && node != "" && ',' !in node && IsReady(s, Node(node))
    ensures Next(Next(Next(s, CmGet), CmList), CmCheck) == s.(cm := CmSaw(node, s.cmRv))
  {
    SplitOne(node, ',');
    assert TopText(node) == node;
    CmLists(s);
  }

  lemma CmDeletes(s: Fine, node: string)
    requires s.cm == CmSaw(node, s.cmRv) && node != "" && ',' !in node && Node(node) in s.w.ds
    ensures Next(s, CmDelete) == s.(w := s.w.(ds := s.w.ds - {Node(node)}), cm := CmDeleted(node, s.cmRv))
  {
    SplitOne(node, ',');
  }

  lemma CmStops(s: Fine)
    ensures Next(s, CmStop) == s.(cm := CmIdle)
  {
  }

  /** A world in which a node is requested again while its earlier request is ready to complete. */
  predicate RequestedAgain(w: World, node: string)
  {
    && node != "" && ',' !in node && w.desired.None?
    && w.ann == map[REINIT := node] && w.updated == Some(node) && w.ds == map[Node(node) := true]
  }

  /** Both reconciles up to the point where one knows the DaemonSet exists and the other that it is ready. */
  function BothFind(s: Fine): Fine
  {
    var f := Next(Next(Next(Next(s, FiGet), FiGetConf), FiUserConfig(false)), FiEnsure);
    Next(Next(Next(f, CmGet), CmList), CmCheck)
  }

  /** The ConfigMap reconcile completes before the FileIntegrity reconcile goes on. */
  function PopThenPush(s: Fine): Fine
  {
    Next(Next(Next(Next(Next(s, CmDelete), CmPop), FiGetLatest), FiPush), FiRemove)
  }

  lemma BothInProgress(s: Fine, node: string)
    requires RequestedAgain(s.w, node) && s.fi.FiIdle? && s.cm.CmIdle?
    ensures BothFind(s) == s.(fi := FiEnsured(s.w.ann, s.fiRv, node), cm := CmSaw(node, s.cmRv))
  {
    KeysDiffer();
    SplitOne(node, ',');
    var f := Next(Next(Next(s, FiGet), FiGetConf), FiUserConfig(false));
    assert f == s.(fi := FiDecided(s.w.ann, s.fiRv, false));
    var e := Next(f, FiEnsure);
    assert e == s.(fi := FiEnsured(s.w.ann, s.fiRv, node));
    hide Next;
    CmFinds(e, node);
  }

  lemma PoppedThenPushed(s: Fine, node: string)
    requires RequestedAgain(s.w, node)
    requires s.fi == FiEnsured(s.w.ann, s.fiRv, node) && s.cm == CmSaw(node, s.cmRv)
    ensures PopThenPush(s).w == s.w.(ds := map[], updated := Some(node), ann := map[])
    ensures PopThenPush(s).fi.FiIdle? && PopThenPush(s).cm.CmIdle?
  {
    hide Next;
    SplitOne(node, ',');
    Popped(s, node);
    FiPushes(Next(Next(s, CmDelete), CmPop), s.w.ann, node);
    assert map[REINIT := node] - {REINIT} == map[];
  }

  lemma Popped(s: Fine, node: string)
    requires RequestedAgain(s.w, node) && s.cm == CmSaw(node, s.cmRv)
    ensures var u := Next(Next(s, CmDelete), CmPop);
            u.w == s.w.(ds := map[], updated := None) && u.fi == s.fi && u.fiRv == s.fiRv && u.cm.CmIdle?
  {
    SplitOne(node, ',');
    CmDeletes(s, node);
    assert s.w.ds - {Node(node)} == map[];
  }

  /** Interleaved calls can strand an entry: the FileIntegrity reconcile finds the DaemonSet of the
      earlier request, the ConfigMap reconcile deletes it and pops that request, and then the
      new request is listed with no DaemonSet left. */
  lemma InterleavingStrands(s: Fine, node: string)
    requires RequestedAgain(s.w, node) && s.fi.FiIdle? && s.cm.CmIdle?
    ensures Consistent(s.w)
    ensures var u := PopThenPush(BothFind(s)); u.fi.FiIdle? && u.cm.CmIdle? && HandoffRuns.Stuck(u.w, Node(node))
  {
    hide BothFind, PopThenPush;
    BothInProgress(s, node);
    PoppedThenPushed(BothFind(s), node);
    SplitOne(node, ',');
    assert Decode(s.w.updated) == [Node(node)];
  }

  // ---------- an uninterrupted reconcile is the atomic one ----------

  function FiDecideCalls(s: Fine, again: bool): Fine
  {
    Next(Next(Next(s, FiGet), FiGetConf), FiUserConfig(again))
  }

  function FiActCalls(s: Fine): Fine
  {
    Next(Next(Next(Next(Next(s, FiOnFailed), FiEnsure), FiGetLatest), FiPush), FiRemove)
  }

  lemma FiDecides(s: Fine, again: bool)
    requires s.fi.FiIdle?
    ensures var u := FiDecideCalls(s, again);
            && u.w == ConfigWritten(s.w) && u.fiRv == s.fiRv && u.cm == s.cm
            && u.fi == FiDecided(s.w.ann, s.fiRv, NewConfig(s.w))
  {
    var s2 := Next(Next(s, FiGet), FiGetConf);
    assert s2 == s.(fi := FiConf(s.w.ann, s.fiRv, s.w.updated, s.w.conf, s.cmRv));
  }

  lemma FiPushes(s: Fine, ann: Ann, node: string)
    requires s.fi == FiEnsured(ann, s.fiRv, node) && s.w.ann == ann
    ensures var u := Next(Next(Next(s, FiGetLatest), FiPush), FiRemove);
            && u.cm == s.cm && u.fi.FiIdle?
            && u.w == s.w.(updated := PushText(s.w.updated, node),
                           ann := Store(ann, REINIT, RemoveReinit(Lookup(ann, REINIT), node)))
  {
    var got := Next(s, FiGetLatest);
    var pushed := Next(got, FiPush);
    assert pushed.fi == FiPushed(ann, s.fiRv, node);
    assert pushed.w == s.w.(updated := PushText(s.w.updated, node));
    assert Store(ann, REINIT, Lookup(ann, REINIT)) == ann;
  }

  lemma FiActs(s: Fine, w: World)
    requires s.fi == FiDecided(w.ann, s.fiRv, NewConfig(w)) && s.w == ConfigWritten(w)
    ensures FiActCalls(s).w == FiReconcile(w) && FiActCalls(s).cm == s.cm
  {
    var ensured := Next(Next(s, FiOnFailed), FiEnsure);
    if ensured.fi.FiEnsured? {
      FiPushes(ensured, w.ann, NodeToReinit(Reinit(w), NewConfig(w)));
    }
  }

  /** The calls of one FileIntegrity reconcile, without interruption, do what FiReconcile says. */
  lemma FiReconcileIsRun(s: Fine, again: bool)
    requires s.fi.FiIdle?
    ensures FiActCalls(FiDecideCalls(s, again)).w == FiReconcile(s.w)
    ensures FiActCalls(FiDecideCalls(s, again)).cm == s.cm
  {
    FiDecides(s, again);
    FiActs(FiDecideCalls(s, again), s.w);
  }

  function Sweep(s: Fine, targets: seq<Target>): Fine
    decreases |targets|
  {
    if targets == [] then s else Sweep(Next(s, CmSweep(targets[0])), targets[1..])
  }

  lemma {:induction false} Sweeps(s: Fine) returns (targets: seq<Target>)
    requires s.cm.CmSweeping?
    ensures Sweep(s, targets) == s.(w := s.w.(ds := s.w.ds - s.cm.todo), cm := CmSweeping(s.cm.text, s.cm.cmv, {}))
    decreases s.cm.todo
  {
    if s.cm.todo == {} {
      targets := [];
      assert s.w.ds - {} == s.w.ds;
    } else {
      var t :| t in s.cm.todo;
      var rest := Sweeps(Next(s, CmSweep(t)));
      targets := [t] + rest;
      assert targets[1..] == rest;
      assert (s.w.ds - {t}) - (s.cm.todo - {t}) == s.w.ds - s.cm.todo;
    }
  }

  function CmFinishCalls(s: Fine): Fine
  {
    Next(Next(Next(Next(s, CmCheck), CmDelete), CmPop), CmStop)
  }

  lemma CmFinishes(s: Fine, w: World)
    requires w.updated.Some? && s.cm == CmSweeping(w.updated.value, s.cmRv, {})
    requires s.w == w.(ds := Swept(w.ds, TargetOf(TopText(w.updated.value))))
    ensures CmFinishCalls(s).w == CmReconcile(w) && CmFinishCalls(s).fi == s.fi
  {
    hide TopText, PopText;
    var saw := Next(s, CmCheck);
    if saw.cm.CmSaw? {
      var deleted := Next(saw, CmDelete);
      assert deleted.cm == CmDeleted(w.updated.value, s.cmRv);
    }
  }

  /** The calls of one ConfigMap reconcile, without interruption, do what CmReconcile says. */
  lemma CmReconcileIsRun(s: Fine) returns (targets: seq<Target>)
    requires s.cm.CmIdle?
    ensures var u := CmFinishCalls(Sweep(Next(Next(s, CmGet), CmList), targets));
            u.w == CmReconcile(s.w) && u.fi == s.fi
  {
    hide Next, TopText, CmFinishCalls;
    var listed := Next(Next(s, CmGet), CmList);
    targets := [];
    if s.w.updated.Some? {
      CmLists(s);
      targets := Sweeps(listed);
      assert s.w.ds - listed.cm.todo == Swept(s.w.ds, TargetOf(TopText(s.w.updated.value)));
      CmFinishes(Sweep(listed, targets), s.w);
    } else {
      CmHasNothing(s);
    }
  }

  lemma CmHasNothing(s: Fine)
    requires s.cm.CmIdle? && s.w.updated.None?
    ensures CmFinishCalls(Sweep(Next(Next(s, CmGet), CmList), [])) == s
  {
    assert Next(Next(s, CmGet), CmList) == s;
  }
}
