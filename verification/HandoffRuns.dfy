/** Whole runs of the hand-off with atomic reconciles: consistency of every
    reachable state, and draining of all requests. */
module HandoffRuns {
  import opened Text
  import opened Annotations
  import opened UpdatedList
  import opened Coverage
  import opened Handoff

  // ---------- every reachable state ----------

  /** A reconcile, or anything users, the node controller and the cluster do in between. */
  datatype Event =
    | FiEvent
    | CmEvent
    | ReadyEvent(t: Target, ready: bool)
    | AnnotateEvent(ann: Ann)
    | ConfigEvent(desired: Option<string>)
    | ScanEvent(failed: seq<string>)
    | NodesEvent(nodes: set<string>, labelled: set<string>)
    | RestoreEvent(conf: string)  // the damaged AIDE ConfigMap is written anew, without its list

  function Apply(w: World, e: Event): World
  {
    match e
    case FiEvent => FiReconcile(w)
    case CmEvent => CmReconcile(w)
    case ReadyEvent(t, ready) => if t in w.ds then w.(ds := w.ds[t := ready]) else w
    case AnnotateEvent(ann) => w.(ann := ann)
    case ConfigEvent(desired) => w.(desired := desired)
    case ScanEvent(failed) => w.(failed := failed)
    case NodesEvent(nodes, labelled) => w.(nodes := nodes, labelled := labelled)
    case RestoreEvent(conf) => w.(updated := None, conf := conf)
  }

  function ApplyAll(w: World, events: seq<Event>): World
    decreases |events|
  {
    if events == [] then w else ApplyAll(Apply(w, events[0]), events[1..])
  }

  /** The events that break consistency: a FileIntegrity reconcile in one of the two gap
      situations, and a restore while there are re-init DaemonSets. */
  predicate Untidies(w: World, e: Event)
  {
    (e.FiEvent? && Gap(w)) || (e.RestoreEvent? && w.ds != map[])
  }

  /** One event keeps a consistent world consistent exactly when it is none of these. */
  lemma EventConsistent(w: World, e: Event)
    requires Consistent(w)
    ensures Consistent(Apply(w, e)) <==> !Untidies(w, e)
  {
    match e
    case FiEvent => FiReconcileConsistent(w);
    case CmEvent => CmReconcileConsistent(w);
    case ReadyEvent(t, ready) => assert t in w.ds ==> w.ds[t := ready].Keys == w.ds.Keys;
    case RestoreEvent(_) =>
      if w.ds != map[] {
        assert w.ds.Keys != {};
      }
    case _ =>
  }

  predicate GapFree(w: World, events: seq<Event>)
    decreases |events|
  {
    events != [] ==> !Untidies(w, events[0]) && GapFree(Apply(w, events[0]), events[1..])
  }

  /** Every state of every gap-free run is consistent: each listed entry has its
      DaemonSet, and with no "all" entry there are no others. */
  lemma {:induction false} RunConsistent(w: World, events: seq<Event>)
    requires Consistent(w) && GapFree(w, events)
    ensures Consistent(ApplyAll(w, events))
    decreases |events|
  {
    if events != [] {
      EventConsistent(w, events[0]);
      RunConsistent(Apply(w, events[0]), events[1..]);
    }
  }

  // ---------- draining ----------

  function AllReady(w: World): (r: World)
    ensures r.ds.Keys == w.ds.Keys
  {
    w.(ds := map t | t in w.ds :: true)
  }

  /** One reconcile of each controller, with the DaemonSets ready in between. */
  function Round(w: World): World
  {
    CmReconcile(AllReady(FiReconcile(w)))
  }

  function Rounds(w: World, k: nat): World
    decreases k
  {
    if k == 0 then w else Rounds(Round(w), k - 1)
  }

  function ListLength(v: Option<string>): nat
  {
    if v.None? then 0 else |Split(v.value, ',')|
  }

  /** Requests left: entries on either list, plus one for a configuration not yet written. */
  function Work(w: World): nat
  {
    ListLength(Reinit(w)) + ListLength(w.updated) + if NewConfig(w) then 1 else 0
  }

  /** Every listed name is a node with a hostname label. */
  ghost predicate Known(w: World)
  {
    Reinit(w).Some? ==>
      forall p | p in Split(Reinit(w).value, ',') :: p == "" || (p in w.nodes && p in w.labelled)
  }

  ghost predicate Calm(w: World)
  {
    Consistent(w) && Known(w) && REINIT_ON_FAILED !in w.ann
  }

  /** Removing a listed entry shortens the list, duplicates or not, and invents no name. */
  lemma RemoveShortens(v: Option<string>, entry: string)
    requires Lists(v, entry)
    ensures ListLength(RemoveReinit(v, entry)) < ListLength(v)
    ensures var r := RemoveReinit(v, entry);
            r.Some? ==> forall p | p in Split(r.value, ',') :: p == "" || p in Split(v.value, ',')
  {
    var pieces := Split(v.value, ',');
    if entry != "" && |pieces| > 1 {
      var rest := Without(pieces, entry);
      if rest == [] {
        assert Split("", ',') == [""];
      } else {
        SplitJoin(rest, ',');
      }
    }
  }

  lemma PushLength(v: Option<string>, entry: string)
    requires ',' !in entry
    ensures 1 <= ListLength(PushText(v, entry)) <= ListLength(v) + 1
    ensures entry == "" ==> ListLength(PushText(v, entry)) == 1
  {
    PushRefines(v, entry);
  }

  /** A FileIntegrity reconcile of a calm world moves one request along. */
  lemma FiRound(w: World)
    requires Calm(w)
    ensures var r := FiReconcile(w);
            && Calm(r) && !NewConfig(r)
            && ListLength(Reinit(r)) <= ListLength(Reinit(w))
            && (Reinit(w).Some? && !NewConfig(w) ==> ListLength(Reinit(r)) < ListLength(Reinit(w)))
            && (if NewConfig(w) then ListLength(r.updated) == 1
                else if Reinit(w).Some? then 1 <= ListLength(r.updated) <= ListLength(w.updated) + 1
                else r == w)
  {
    var hasNew := NewConfig(w);
    if hasNew || Reinit(w).Some? {
      var node := NodeToReinit(Reinit(w), hasNew);
      NodeHasNoComma(Reinit(w), hasNew);
      FiReconcileConsistent(w);
      PushLength(w.updated, node);
      if Lists(Reinit(w), node) {
        RemoveShortens(Reinit(w), node);
      }
    }
  }

  /** With every DaemonSet ready, a ConfigMap reconcile completes the last entry. */
  lemma CmRound(w: World)
    requires Calm(w)
    ensures var r := CmReconcile(AllReady(w));
            && Calm(r)
            && r.ann == w.ann && NewConfig(r) == NewConfig(w)
            && ListLength(r.updated) == if w.updated.None? then 0 else ListLength(w.updated) - 1
  {
    hide WellStacked, TopText, PopText;
    CmReconcileConsistent(AllReady(w));
    if w.updated.Some? {
      PopRefines(w.updated.value);
      assert Top(Decode(w.updated)) in Decode(w.updated);
    }
  }

  lemma RoundWorks(w: World)
    requires Calm(w)
    ensures Calm(Round(w))
    ensures Work(w) > 0 ==> Work(Round(w)) < Work(w)
    ensures Work(w) == 0 ==> Work(Round(w)) == 0
  {
    FiRound(w);
    CmRound(FiReconcile(w));
  }

  ghost predicate Settled(w: World)
  {
    Reinit(w).None? && w.updated.None? && w.ds == map[]
  }

  /** As many rounds as there is work leave both lists absent and no re-init DaemonSet. */
  lemma {:induction false} Drains(w: World, k: nat)
    requires Calm(w) && k >= Work(w)
    ensures Settled(Rounds(w, k))
    decreases k
  {
    hide Round;
    if k == 0 {
      assert w.ds.Keys == {};
    } else {
      hide Calm, Settled, Work;
      RoundWorks(w);
      Drains(Round(w), k - 1);
    }
  }

  // ---------- draining serves every request ----------

  predicate Covered(w: World, node: string)
  {
    Lists(Reinit(w), node) || ListCovers(w.updated, node)
  }

  /** A ConfigMap reconcile of `w` pops an entry covering the node, with its DaemonSet ready. */
  predicate Serves(w: World, node: string)
  {
    w.updated.Some? && var t := TargetOf(TopText(w.updated.value)); t in w.ds && w.ds[t] && Covers(t, node)
  }

  lemma FiKeepsCovered(w: World, node: string)
    requires Covered(w, node) && node != ""
    requires REINIT_ON_FAILED in w.ann ==> forall x | x in w.failed :: ',' !in x
    ensures Covered(FiReconcile(w), node)
  {
    var hasNew := NewConfig(w);
    var entry := NodeToReinit(Reinit(w), hasNew);
    NodeHasNoComma(Reinit(w), hasNew);
    PushCovers(w.updated, "", node);
    if Lists(Reinit(w), node) {
      if REINIT_ON_FAILED in w.ann {
        AddReinitKeeps(Reinit(w), w.failed, node);
      }
      RemoveCovers(Reinit(w), entry, node);
    }
    PushCovers(ConfigWritten(w).updated, entry, node);
  }

  lemma CmKeepsCovered(w: World, node: string)
    requires Covered(w, node)
    ensures Covered(CmReconcile(w), node) || Serves(w, node)
  {
    if w.updated.Some? && ListCovers(w.updated, node) {
      PopCovers(w.updated.value, node);
    }
  }

  /** The round from `w` serves the node. */
  predicate RoundServes(w: World, node: string)
  {
    Serves(AllReady(FiReconcile(w)), node)
  }

  lemma RoundKeepsCovered(w: World, node: string)
    requires Calm(w) && Covered(w, node) && node != ""
    ensures Covered(Round(w), node) || RoundServes(w, node)
  {
    FiKeepsCovered(w, node);
    CmKeepsCovered(AllReady(FiReconcile(w)), node);
  }

  /** While draining, each node that was requested gets a pop of an entry covering
      it whose DaemonSet was ready. */
  lemma {:induction false} DrainServes(w: World, node: string, k: nat) returns (i: nat)
    requires Calm(w) && k >= Work(w)
    requires Covered(w, node) && node != ""
    ensures i < k && RoundServes(Rounds(w, i), node)
    decreases k
  {
    hide Round, RoundServes, Calm, Covered, Work;
    CoveredIsWork(w, node);
    i := 0;
    if !RoundServes(w, node) {
      RoundKeepsCovered(w, node);
      RoundWorks(w);
      i := DrainServes(Round(w), node, k - 1);
      i := i + 1;
    }
  }

  lemma CoveredIsWork(w: World, node: string)
    requires Covered(w, node)
    ensures Work(w) > 0
  {
  }

  // ---------- a node without a hostname label blocks the list ----------

  /** A node that exists without a hostname label is somewhere on a list without empty pieces. */
  ghost predicate Obstructs(w: World, p: string)
  {
    && REINIT_ON_FAILED !in w.ann && Reinit(w).Some?
    && p in Split(Reinit(w).value, ',') && "" !in Split(Reinit(w).value, ',')
    && p in w.nodes && p !in w.labelled && Node(p) !in w.ds
  }

  lemma FiObstructs(w: World, p: string)
    requires Obstructs(w, p)
    ensures Obstructs(FiReconcile(w), p)
  {
    var v, node := Reinit(w), NodeToReinit(Reinit(w), NewConfig(w));
    if NewConfig(w) {
      assert RemoveReinit(v, node) == v;
    } else if node != p {
      var rest := Without(Split(v.value, ','), node);
      assert p in rest;
      SplitJoin(rest, ',');
    }
  }

  /** A ConfigMap reconcile only removes DaemonSets and entries. */
  lemma CmShrinks(w: World)
    ensures var r := CmReconcile(w);
            && r == w.(ds := r.ds, updated := r.updated) && r.ds.Keys <= w.ds.Keys
            && forall t | t in Decode(r.updated) :: t in Decode(w.updated)
  {
    hide TopText, PopText, Decode;
    if w.updated.Some? {
      PopRefines(w.updated.value);
    }
  }

  lemma RoundObstructs(w: World, p: string)
    requires Obstructs(w, p)
    ensures Obstructs(Round(w), p)
  {
    hide FiReconcile, CmReconcile;
    FiObstructs(w, p);
    CmShrinks(AllReady(FiReconcile(w)));
  }

  lemma {:induction false} NeverDrains(w: World, p: string, k: nat)
    requires Obstructs(w, p)
    ensures !Settled(Rounds(w, k))
    decreases k
  {
    hide Round;
    if k > 0 {
      RoundObstructs(w, p);
      NeverDrains(Round(w), p, k - 1);
    }
  }

  /** From a consistent world whose list names existing nodes that have no DaemonSet yet, the rounds
      drain everything exactly when each of them has a hostname label. */
  lemma DrainsIff(w: World)
    requires Consistent(w) && REINIT_ON_FAILED !in w.ann
    requires Reinit(w).Some? ==>
               forall p | p in Split(Reinit(w).value, ',') :: p != "" && p in w.nodes && Node(p) !in w.ds
    ensures (exists k: nat :: Settled(Rounds(w, k))) <==> Known(w)
  {
    if Known(w) {
      Drains(w, Work(w));
    } else {
      var p :| p in Split(Reinit(w).value, ',') && p !in w.labelled;
      forall k: nat
        ensures !Settled(Rounds(w, k))
      {
        NeverDrains(w, p, k);
      }
    }
  }

  /** The reconcile ends at the first listed node, because it has no hostname label. */
  predicate Blocked(w: World)
  {
    && REINIT_ON_FAILED !in w.ann && !NewConfig(w) && Reinit(w).Some?
    && EnsureOutcome(w, NodeToReinit(Reinit(w), false)).NoHostname?
  }

  /** What ends that: other annotations, a new configuration, and a label for the node, or its removal. */
  predicate Unblocks(w: World, e: Event)
  {
    match e
    case AnnotateEvent(ann) =>
      || REINIT_ON_FAILED in ann || REINIT !in ann
      || !EnsureOutcome(w, NodeToReinit(Lookup(ann, REINIT), false)).NoHostname?
    case ConfigEvent(desired) => desired.Some? && desired.value != w.conf
    case NodesEvent(nodes, labelled) =>
      var node := NodeToReinit(Reinit(w), false); node !in nodes || node in labelled
    case RestoreEvent(conf) => w.desired.Some? && w.desired.value != conf
    case _ => false
  }

  /** One event leaves the list blocked exactly when it is none of these; a FileIntegrity reconcile
      then changes nothing at all, and nothing is listed or given a DaemonSet. */
  lemma BlockedStep(w: World, e: Event)
    requires Blocked(w)
    ensures Blocked(Apply(w, e)) <==> !Unblocks(w, e)
    ensures FiReconcile(w) == w
    ensures Apply(w, e).ds.Keys <= w.ds.Keys
    ensures forall t | t in Decode(Apply(w, e).updated) :: t in Decode(w.updated)
  {
    hide CmReconcile, Decode;
    match e
    case FiEvent =>
    case CmEvent => CmShrinks(w);
    case ReadyEvent(_, _) =>
    case AnnotateEvent(_) =>
    case RestoreEvent(_) => assert Decode(None) == [];
    case _ =>
  }

  predicate NeverUnblocked(w: World, events: seq<Event>)
    decreases |events|
  {
    events != [] ==> !Unblocks(w, events[0]) && NeverUnblocked(Apply(w, events[0]), events[1..])
  }

  /** So requests behind the node wait through every run of events without one of these. */
  lemma {:induction false} BlockedUntilUnblocked(w: World, events: seq<Event>)
    requires Blocked(w) && NeverUnblocked(w, events)
    ensures var u := ApplyAll(w, events);
            && Blocked(u) && FiReconcile(u) == u && u.ds.Keys <= w.ds.Keys
            && forall t | t in Decode(u.updated) :: t in Decode(w.updated)
    decreases |events|
  {
    hide Blocked, Unblocks, FiReconcile, Apply;
    if events == [] {
      BlockedStep(w, FiEvent);
    } else {
      BlockedStep(w, events[0]);
      BlockedUntilUnblocked(Apply(w, events[0]), events[1..]);
    }
  }

  // ---------- entries without a DaemonSet ----------

  /** The entry is listed and has no DaemonSet. */
  predicate Stuck(w: World, t: Target)
  {
    t in Decode(w.updated) && t !in w.ds
  }

  /** What ends that: a FileIntegrity reconcile that makes the DaemonSet, because the target is
      requested again and can be served now, or that replaces the list by an all-nodes request;
      or a restore of the ConfigMap. */
  predicate Frees(w: World, e: Event, t: Target)
  {
    match e
    case FiEvent =>
      if REINIT_ON_FAILED in w.ann then NewConfig(w) && t != All
      else if !NewConfig(w) && Reinit(w).None? then false
      else
        var node := NodeToReinit(Reinit(w), NewConfig(w));
        node == "" || (TargetOf(node) == t && EnsureOutcome(w, node).Create?)
    case RestoreEvent(_) => true
    case _ => false
  }

  /** One event leaves the entry stuck exactly when it is not one of these. */
  lemma StuckStep(w: World, e: Event, t: Target)
    requires Stuck(w, t)
    ensures Stuck(Apply(w, e), t) <==> !Frees(w, e, t)
  {
    match e
    case FiEvent => FiStuck(w, t);
    case CmEvent => CmStuck(w, t);
    case _ =>
  }

  lemma FiStuck(w: World, t: Target)
    requires Stuck(w, t)
    ensures Stuck(FiReconcile(w), t) <==> !Frees(w, FiEvent, t)
  {
    hide Decode, Push;
    var hasNew := NewConfig(w);
    var node := NodeToReinit(Reinit(w), hasNew);
    NodeHasNoComma(Reinit(w), hasNew);
    PushRefines(w.updated, node);
    PushHas(Decode(w.updated), TargetOf(node), t);
    PushRefines(w.updated, "");
    PushHas(Decode(w.updated), All, t);
    assert PushText(PushText(w.updated, ""), "") == PushText(w.updated, "");
  }

  lemma CmStuck(w: World, t: Target)
    requires Stuck(w, t)
    ensures Stuck(CmReconcile(w), t)
  {
    PopRefines(w.updated.value);
    PopKeeps(Decode(w.updated), t);
  }

  predicate Unfreed(w: World, events: seq<Event>, t: Target)
    decreases |events|
  {
    events != [] ==> !Frees(w, events[0], t) && Unfreed(Apply(w, events[0]), events[1..], t)
  }

  /** So it stays stuck through every run of events of any kind without such an event. */
  lemma {:induction false} StuckUntilFreed(w: World, events: seq<Event>, t: Target)
    requires Stuck(w, t) && Unfreed(w, events, t)
    ensures Stuck(ApplyAll(w, events), t)
    decreases |events|
  {
    if events != [] {
      StuckStep(w, events[0], t);
      StuckUntilFreed(Apply(w, events[0]), events[1..], t);
    }
  }

  /** Requesting the node again once it exists releases its entry: if that was the only one
      without a DaemonSet, everything drains. */
  lemma RequestReleases(w: World, node: string)
    requires Stuck(w, TargetOf(node)) && Tidy(Decode(w.updated), w.ds.Keys + {TargetOf(node)})
    requires Reinit(w) == Some(node) && REINIT_ON_FAILED !in w.ann && !NewConfig(w)
    requires node == "" || (',' !in node && node in w.nodes && node in w.labelled)
    ensures Settled(Rounds(FiReconcile(w), Work(FiReconcile(w))))
  {
    var t := TargetOf(node);
    var out := FiReconcile(w);
    SplitOne(node, ',');
    assert NodeToReinit(Reinit(w), false) == node;
    assert out.ds == w.ds[t := false] && out.ds.Keys == w.ds.Keys + {t};
    PushRefines(w.updated, node);
    PushTidy(Decode(w.updated), t, out.ds.Keys);
    assert Reinit(out).None?;
    Drains(out, Work(out));
  }

  /** The two gap situations, each at an input: a request for a node that does not exist is listed
      without a DaemonSet. */
  lemma MissingNodeStrands()
    ensures var w := World(map[REINIT := "gone"], None, "", None, map[], {}, {}, []);
            Consistent(w) && Gap(w) && Stuck(FiReconcile(w), Node("gone"))
  {
    var w := World(map[REINIT := "gone"], None, "", None, map[], {}, {}, []);
    SplitOne("gone", ',');
    assert Reinit(w) == Some("gone");
  }

  /** A new configuration seen together with re-init-on-failed requests all nodes
      and returns before the DaemonSet is made. */
  lemma CoincidenceStrands()
    ensures var w := World(map[REINIT_ON_FAILED := ""], None, "old", Some("new"), map[], {}, {}, []);
            Consistent(w) && Gap(w) && Stuck(FiReconcile(w), All)
  {
    assert "old" != "new" by { assert "old"[0] != "new"[0]; }
  }

  // ---------- which DaemonSet serves a request ----------

  /** The entry is listed and its DaemonSet exists and is not ready yet. */
  predicate Waiting(w: World, t: Target)
  {
    t in Decode(w.updated) && t in w.ds && !w.ds[t]
  }

  /** A reconcile leaves its request waiting for a DaemonSet that did not exist before exactly when
      createReinitDaemonSet finds none and can make one. */
  lemma RequestGetsFreshDaemonSet(w: World)
    requires REINIT_ON_FAILED !in w.ann && !NewConfig(w) && Reinit(w).Some?
    ensures var node := NodeToReinit(Reinit(w), false);
            var t := TargetOf(node);
            t !in w.ds && Waiting(FiReconcile(w), t) <==> EnsureOutcome(w, node).Create?
  {
    NodeHasNoComma(Reinit(w), false);
    PushCovers(w.updated, NodeToReinit(Reinit(w), false), "");
  }

  /** What ends the waiting: the DaemonSet gets ready; an all-nodes request takes the place of a
      single node, or its DaemonSet is swept; the ConfigMap is restored. */
  predicate EndsWaiting(w: World, e: Event, t: Target)
  {
    match e
    case ReadyEvent(x, ready) => x == t && ready
    case FiEvent =>
      t != All && (NewConfig(w) ||
                   (REINIT_ON_FAILED !in w.ann && Reinit(w).Some? && NodeToReinit(Reinit(w), false) == ""))
    case CmEvent => t != All && w.updated.Some? && TopText(w.updated.value) == ""
    case RestoreEvent(_) => true
    case _ => false
  }

  lemma WaitingStep(w: World, e: Event, t: Target)
    requires Waiting(w, t)
    ensures Waiting(Apply(w, e), t) <==> !EndsWaiting(w, e, t)
  {
    match e
    case FiEvent => FiWaiting(w, t);
    case CmEvent => CmWaiting(w, t);
    case _ =>
  }

  lemma FiWaiting(w: World, t: Target)
    requires Waiting(w, t)
    ensures Waiting(FiReconcile(w), t) <==> !EndsWaiting(w, FiEvent, t)
  {
    hide Decode, Push;
    var hasNew := NewConfig(w);
    var node := NodeToReinit(Reinit(w), hasNew);
    NodeHasNoComma(Reinit(w), hasNew);
    PushRefines(w.updated, node);
    PushHas(Decode(w.updated), TargetOf(node), t);
    PushRefines(w.updated, "");
    PushHas(Decode(w.updated), All, t);
    assert PushText(PushText(w.updated, ""), "") == PushText(w.updated, "");
  }

  lemma CmWaiting(w: World, t: Target)
    requires Waiting(w, t)
    ensures Waiting(CmReconcile(w), t) <==> !EndsWaiting(w, CmEvent, t)
  {
    hide Decode, Pop, TopText, PopText;
    PopRefines(w.updated.value);
    PopKeeps(Decode(w.updated), t);
  }

  predicate KeepsWaiting(w: World, events: seq<Event>, t: Target)
    decreases |events|
  {
    events != [] ==> !EndsWaiting(w, events[0], t) && KeepsWaiting(Apply(w, events[0]), events[1..], t)
  }

  /** So a request with a fresh DaemonSet is completed only after that has become ready, or is
      superseded by all nodes: in every run without such an event it is still waiting. */
  lemma {:induction false} WaitsUntilReady(w: World, events: seq<Event>, t: Target)
    requires Waiting(w, t) && KeepsWaiting(w, events, t)
    ensures Waiting(ApplyAll(w, events), t)
    decreases |events|
  {
    if events != [] {
      WaitingStep(w, events[0], t);
      WaitsUntilReady(Apply(w, events[0]), events[1..], t);
    }
  }

  /** With a DaemonSet left from before, the request is absorbed: asked for again while its earlier request is ready to
      complete, it is completed with it and no DaemonSet is made for it. */
  lemma RequestAbsorbed(w: World, node: string)
    requires node != "" && ',' !in node && w.desired.None?
    requires w.ann == map[REINIT := node] && w.updated == Some(node) && w.ds == map[Node(node) := true]
    ensures FiReconcile(w).ds == w.ds && Settled(CmReconcile(FiReconcile(w)))
  {
    KeysDiffer();
    SplitOne(node, ',');
    assert map[REINIT := node] - {REINIT} == map[];
  }
}
