/** The re-init hand-off between the FileIntegrity controller and the ConfigMap
    controller, one reconcile at a time.

    `World` is the part of the cluster both controllers share for one
    FileIntegrity. Re-init DaemonSets are keyed by their target. The class
    `Cluster` holds the same objects as mutable fields and its two methods follow
    the reconcilers statement by statement; `FiReconcile` and `CmReconcile` say
    what they do to the world, and the theorems are about those. */
module Handoff {
  import opened Text
  import opened Annotations
  import opened UpdatedList
  import AideConf

  datatype World = World(
    ann: Ann,                  // annotations of the FileIntegrity
    updated: Option<string>,   // `updated` annotation of the AIDE ConfigMap
    conf: string,              // aide.conf in the AIDE ConfigMap
    desired: Option<string>,   // prepared user or default aide.conf; None when there is none to use
    ds: map<Target, bool>,     // re-init DaemonSets, and whether each is ready
    nodes: set<string>,        // nodes of the cluster
    labelled: set<string>,     // names carried by nodes with a hostname label
    failed: seq<string>        // nodes whose last result is Failed
  )

  // ---------- the FileIntegrity controller ----------

  predicate NewConfig(w: World)
  {
    w.desired.Some? && w.desired.value != w.conf
  }

  /** reconcileUserConfig: a new configuration replaces the old one and requests all nodes. */
  function ConfigWritten(w: World): World
  {
    if NewConfig(w) then w.(conf := w.desired.value, updated := PushText(w.updated, "")) else w
  }

  /** The entry a reconcile works on: the first listed node, or all nodes. */
  function NodeToReinit(v: Option<string>, hasNewConfig: bool): string
  {
    if hasNewConfig || v.None? || v.value == "" then "" else Split(v.value, ',')[0]
  }

  datatype Ensured = Present | Create | NodeMissing | NoHostname

  /** createReinitDaemonSet: what it finds for an entry. */
  function EnsureOutcome(w: World, node: string): Ensured
  {
    if TargetOf(node) in w.ds then Present
    else if node == "" then Create
    else if node !in w.nodes then NodeMissing
    else if node !in w.labelled then NoHostname
    else Create
  }

  function WithDs(w: World, node: string): World
  {
    if EnsureOutcome(w, node).Create? then w.(ds := w.ds[TargetOf(node) := false]) else w
  }

  function Reinit(w: World): Option<string>
  {
    Lookup(w.ann, REINIT)
  }

  /** The annotations once the re-init-on-failed request has been expanded. */
  function OnFailedExpanded(a: Ann, failed: seq<string>): Ann
  {
    Store(a, REINIT, AddReinit(Lookup(a, REINIT), failed)) - {REINIT_ON_FAILED}
  }

  function FiReconcile(w: World): World
  {
    var hasNew := NewConfig(w);
    var w1 := ConfigWritten(w);
    if REINIT_ON_FAILED in w.ann then w1.(ann := OnFailedExpanded(w.ann, w.failed))
    else if !hasNew && Reinit(w).None? then w1
    else
      var node := NodeToReinit(Reinit(w), hasNew);
      if EnsureOutcome(w1, node).NoHostname? then w1
      else
        var w2 := WithDs(w1, node);
        w2.(updated := PushText(w2.updated, node),
            ann := Store(w.ann, REINIT, RemoveReinit(Reinit(w), node)))
  }

  // ---------- the ConfigMap controller ----------

  /** Working on "all nodes" first deletes every single-node DaemonSet. */
  function Swept(ds: map<Target, bool>, t: Target): map<Target, bool>
  {
    if t.All? then map x | x in ds && x == All :: ds[x] else ds
  }

  function CmReconcile(w: World): World
  {
    if w.updated.None? then w
    else
      var t := TargetOf(TopText(w.updated.value));
      var ds := Swept(w.ds, t);
      if t !in ds || !ds[t] then w.(ds := ds)
      else w.(ds := ds - {t}, updated := PopText(w.updated.value))
  }

  // ---------- the reconcilers as the source runs them ----------

  class Cluster {
    var ann: Ann
    var updated: Option<string>
    var conf: string
    var user: AideConf.UserConfig
    var default: string
    var ds: map<Target, bool>
    var nodes: set<string>
    var labelled: set<string>
    var failed: seq<string>

    ghost function State(): World
      reads this
    {
      World(ann, updated, conf, AideConf.DesiredConf(user, default), ds, nodes, labelled, failed)
    }

    constructor (w: World, user: AideConf.UserConfig, default: string)
      requires w.desired == AideConf.DesiredConf(user, default)
      ensures State() == w
    {
      ann, updated, conf := w.ann, w.updated, w.conf;
      this.user, this.default := user, default;
      ds, nodes, labelled, failed := w.ds, w.nodes, w.labelled, w.failed;
    }

    /** updateAideConfig */
    method UpdateAideConfig(data: string, node: string)
      modifies this`conf, this`updated
      ensures updated == PushText(old(updated), node)
      ensures conf == if old(updated).Some? && node != "" && node in Split(old(updated).value, ',')
                      then old(conf) else data
    {
      var list, write := UpdateAideAnnotation(updated, node);
      if write {
        conf := data;
        updated := list;
      }
    }

    /** reconcileUserConfig */
    method ReconcileUserConfig() returns (isNew: bool)
      modifies this`conf, this`updated
      ensures State() == ConfigWritten(old(State()))
      ensures isNew <==> old(NewConfig(State()))
      ensures !NewConfig(State())
      ensures user.NotNamed? ==> conf == default
      ensures user.Found? && user.text != "" ==> conf == AideConf.Prepared(user.text)
      ensures user.Unusable? || user == AideConf.Found("") ==> conf == old(conf)
      ensures isNew <==> conf != old(conf)
      ensures updated == if isNew then Some("") else old(updated)
    {
      match user
      case NotNamed =>
        if conf == default {
          return false;
        }
        UpdateAideConfig(default, "");
        return true;
      case Unusable =>
        return false;
      case Found(text) =>
        if text == "" {
          return false;
        }
        var prepared := AideConf.PrepareAideConf(text);
        if prepared == conf {
          return false;
        }
        UpdateAideConfig(prepared, "");
        return true;
    }

    /** createReinitDaemonSet */
    method CreateReinitDaemonSet(node: string) returns (ok: bool, created: bool)
      modifies this`ds
      ensures State() == WithDs(old(State()), node)
      ensures ok <==> !EnsureOutcome(old(State()), node).NoHostname?
      ensures created <==> State() != old(State())
    {
      if TargetOf(node) in ds {
        return true, false;
      }
      if node != "" && node !in nodes {
        return true, false;
      }
      if node != "" && node !in labelled {
        return false, false;
      }
      ds := ds[TargetOf(node) := false];
      return true, true;
    }

    /** The re-init part of FileIntegrityControllerReconcile */
    method FileIntegrityReconcile()
      modifies this
      ensures State() == FiReconcile(old(State()))
    {
      hide AideConf.DesiredConf, PushText, AddReinit, RemoveReinit, Lists, Split, Store, EnsureOutcome;
      var hasNewConfig := ReconcileUserConfig();
      if REINIT_ON_FAILED in ann {
        var added, needChange := GetAddedNodeReinitAnnotation(ann, failed);
        StoreSame(ann);
        var copy := if needChange then added.value else ann;
        ann := copy - {REINIT_ON_FAILED};
        return;
      }
      var nodesToReinit, forceReinit, reinitAll := HasReinitAnnotation(ann);
      var nodeToReinit := "";
      if forceReinit && !reinitAll {
        nodeToReinit := nodesToReinit[0];
      }
      if hasNewConfig {
        nodeToReinit := "";
      }
      if hasNewConfig || forceReinit {
        var ok, created := CreateReinitDaemonSet(nodeToReinit);
        if !ok {
          return;
        }
        UpdateAideConfig(conf, nodeToReinit);
        var removed, needChange := GetRemovedNodeReinitAnnotation(ann, nodeToReinit);
        StoreSame(ann);
        NotListedStays(Lookup(ann, REINIT), nodeToReinit);
        if needChange {
          ann := removed.value;
        }
      }
    }

    /** reconcileAideConfAndHandleReinitDs */
    method AideConfReconcile()
      modifies this`ds, this`updated
      ensures State() == CmReconcile(old(State()))
    {
      hide AideConf.DesiredConf, Join;
      if updated.None? {
        return;
      }
      var nodeName := "";
      var nodeList: seq<string> := [];
      if updated.value != "" {
        nodeList := Split(updated.value, ',');
        nodeName := nodeList[|nodeList| - 1];
      }
      var reinitDs := TargetOf(nodeName);
      if nodeName == "" {
        var dsList := ds.Keys;
        while dsList != {}
          invariant dsList <= ds.Keys <= old(ds).Keys
          invariant forall x | x in ds :: ds[x] == old(ds)[x]
          invariant forall x | x in ds :: x in dsList || x == All
          invariant All in old(ds) ==> All in ds
          invariant updated == old(updated)
          decreases |dsList|
        {
          var d :| d in dsList;
          dsList := dsList - {d};
          if d != reinitDs {
            ds := ds - {d};
          }
        }
        assert ds == Swept(old(ds), reinitDs);
      }
      if reinitDs !in ds {
        return;
      }
      if !ds[reinitDs] {
        return;
      }
      ds := ds - {reinitDs};
      if |nodeList| > 1 {
        nodeList := nodeList[..|nodeList| - 1];
        updated := Some(Join(nodeList, ','));
      } else {
        updated := None;
      }
    }
  }

  lemma StoreSame(a: Ann)
    ensures Store(a, REINIT, Lookup(a, REINIT)) == a
  {
  }

  lemma NotListedStays(v: Option<string>, node: string)
    ensures !Lists(v, node) ==> RemoveReinit(v, node) == v
  {
  }

  // ---------- an unchanged configuration ----------

  /** Once a configuration is stored, a reconcile with the same source finds nothing new and
      requests nothing, and so does one whose source is the stored text of the user. */
  lemma UnchangedConfigIsNotNew(w: World, u: AideConf.UserConfig, default: string)
    requires w.desired == AideConf.DesiredConf(u, default)
    ensures var stored := ConfigWritten(w);
            && !NewConfig(stored) && ConfigWritten(stored) == stored
            && (u.Found? && u.text != "" ==>
                  !NewConfig(stored.(desired := AideConf.DesiredConf(AideConf.Found(stored.conf), default))))
  {
    if u.Found? {
      AideConf.PreparedTwice(u.text);
    }
  }

  // ---------- what one reconcile asks for ----------

  /** Expanding re-init-on-failed: its annotation goes, exactly these nodes are listed for re-init
      afterwards, and no other annotation changes. */
  lemma OnFailedLists(a: Ann, failed: seq<string>, n: string)
    requires forall x | x in failed :: x != "" && ',' !in x
    ensures var b := OnFailedExpanded(a, failed);
            && REINIT_ON_FAILED !in b
            && (Lists(Lookup(b, REINIT), n) <==>
                if REINIT !in a then n in failed
                else a[REINIT] == "" || n in Split(a[REINIT], ',') || IsLastNew(a[REINIT], failed, n))
            && (REINIT !in a && failed != [] ==> Lookup(b, REINIT) == Some(Join(failed, ',')))
            && b - {REINIT, REINIT_ON_FAILED} == a - {REINIT, REINIT_ON_FAILED}
  {
    KeysDiffer();
    assert REINIT !in a && failed != [] ==> AddReinit(Lookup(a, REINIT), failed) == Some(Join(failed, ','));
    hide IsLastNew, AddReinit;
    AddReinitLists(Lookup(a, REINIT), failed, n);
    assert Lookup(OnFailedExpanded(a, failed), REINIT) == AddReinit(Lookup(a, REINIT), failed);
  }

  /** A FileIntegrity reconcile that finds re-init-on-failed requests the failed nodes: all of them if
      there was no list, otherwise the last one that is no substring of it; it makes no DaemonSet. */
  lemma OnFailedRequests(w: World, n: string)
    requires REINIT_ON_FAILED in w.ann && forall x | x in w.failed :: x != "" && ',' !in x
    ensures var r := FiReconcile(w);
            && REINIT_ON_FAILED !in r.ann && r.ds == w.ds
            && (Lists(Reinit(r), n) <==>
                if REINIT !in w.ann then n in w.failed
                else w.ann[REINIT] == "" || n in Split(w.ann[REINIT], ',') || IsLastNew(w.ann[REINIT], w.failed, n))
            && r.ann - {REINIT, REINIT_ON_FAILED} == w.ann - {REINIT, REINIT_ON_FAILED}
  {
    hide IsLastNew, OnFailedExpanded, Lists;
    OnFailedLists(w.ann, w.failed, n);
  }

  /** Any other reconcile without a new configuration hands over exactly the first listed node, or all
      nodes for an empty text or first piece, unless that node has no hostname label: its entry is
      listed, and on the FileIntegrity only it is removed. */
  lemma HandsOverFirst(w: World, p: string)
    requires REINIT_ON_FAILED !in w.ann && !NewConfig(w) && REINIT in w.ann
    requires var first := Split(w.ann[REINIT], ',')[0];
             first != "" && Node(first) !in w.ds && first in w.nodes ==> first in w.labelled
    ensures var r, pieces := FiReconcile(w), Split(w.ann[REINIT], ',');
            && (if pieces[0] == "" then All in Decode(r.updated) && REINIT !in r.ann
                else
                  && Node(pieces[0]) in Decode(r.updated)
                  && (p in pieces && p != pieces[0] ==> REINIT in r.ann && p in Split(r.ann[REINIT], ','))
                  && (REINIT in r.ann && r.ann[REINIT] != "" ==> pieces[0] !in Split(r.ann[REINIT], ',')))
            && r.ann - {REINIT} == w.ann - {REINIT} && r.conf == w.conf
  {
    hide Decode, Push, PushText, RemoveReinit, Split, NodeToReinit, FiReconcile;
    var node := NodeToReinit(Reinit(w), false);
    FirstRemoved(w.ann[REINIT], p);
    HandedOver(w);
    NodeHasNoComma(Reinit(w), false);
    PushRefines(w.updated, node);
    PushHas(Decode(w.updated), TargetOf(node), TargetOf(node));
  }

  lemma HandedOver(w: World)
    requires REINIT_ON_FAILED !in w.ann && !NewConfig(w) && REINIT in w.ann
    requires !EnsureOutcome(w, NodeToReinit(Reinit(w), false)).NoHostname?
    ensures var r, node := FiReconcile(w), NodeToReinit(Reinit(w), false);
            && r.updated == PushText(w.updated, node) && r.conf == w.conf
            && r.ann == Store(w.ann, REINIT, RemoveReinit(Reinit(w), node))
  {
    hide PushText, RemoveReinit, NodeToReinit;
  }

  lemma FirstRemoved(text: string, p: string)
    ensures var pieces, r := Split(text, ','), RemoveReinit(Some(text), Split(text, ',')[0]);
            && NodeToReinit(Some(text), false) == pieces[0]
            && (if pieces[0] == "" then r.None?
                else
                  && (p in pieces && p != pieces[0] ==> r.Some? && p in Split(r.value, ','))
                  && (r.Some? && r.value != "" ==> pieces[0] !in Split(r.value, ',')))
  {
    var pieces := Split(text, ',');
    if text == "" {
      assert pieces == [""];
    } else if pieces[0] != "" && |pieces| > 1 {
      var rest := Without(pieces, pieces[0]);
      if rest != [] {
        SplitJoin(rest, ',');
      }
    }
  }

  /** A new configuration is stored, all nodes are listed with a DaemonSet, and a pending all-nodes
      request is thereby met; single nodes stay requested. */
  lemma NewConfigRequestsAll(w: World)
    requires REINIT_ON_FAILED !in w.ann && NewConfig(w)
    ensures var r := FiReconcile(w);
            && Some(r.conf) == w.desired && Decode(r.updated) == [All] && All in r.ds
            && r.ann == if REINIT in w.ann && "" in Split(w.ann[REINIT], ',') then w.ann - {REINIT} else w.ann
  {
    PushRefines(w.updated, "");
    PushRefines(PushText(w.updated, ""), "");
    StoreSame(w.ann);
    NotListedStays(Reinit(w), "");
    if REINIT in w.ann && w.ann[REINIT] == "" {
      assert Split("", ',') == [""];
    }
  }

  // ---------- every listed entry has its DaemonSet ----------

  /** The stack has no duplicates and "all" only at the bottom, each entry has a
      DaemonSet, and unless "all" is listed there are no other DaemonSets. */
  ghost predicate Tidy(stack: seq<Target>, ds: set<Target>)
  {
    && WellStacked(stack)
    && (forall t | t in stack :: t in ds)
    && (All !in stack ==> forall t | t in ds :: t in stack)
  }

  ghost predicate Consistent(w: World)
  {
    Tidy(Decode(w.updated), w.ds.Keys)
  }

  /** The two situations in which a reconcile lists an entry it has no DaemonSet for. */
  predicate Gap(w: World)
  {
    if REINIT_ON_FAILED in w.ann then NewConfig(w) && All !in w.ds
    else !NewConfig(w) && Reinit(w).Some? && EnsureOutcome(w, NodeToReinit(Reinit(w), false)).NodeMissing?
  }

  /** Listing an entry keeps the hand-off tidy exactly when its DaemonSet exists. */
  lemma PushTidy(stack: seq<Target>, t: Target, ds: set<Target>)
    requires Tidy(stack, ds)
    ensures Tidy(Push(stack, t), ds) <==> t in ds
    ensures Tidy(Push(stack, t), ds + {t})
  {
    StackStep(stack, t);
    assert t in Push(stack, t);
    assert forall x | x in stack :: t.All? || x in Push(stack, t);
  }

  lemma PopTidy(stack: seq<Target>, ds: set<Target>)
    requires stack != [] && Tidy(stack, ds)
    ensures var swept := if Top(stack).All? then ds * {All} else ds;
            Tidy(stack, swept) && Tidy(Pop(stack), swept - {Top(stack)})
  {
    StackStep(stack, All);
    PopHas(stack);
    PopKeepsOthers(stack);
    if Top(stack).All? {
      AllIsAlone(stack);
    }
    hide WellStacked, Pop, Top;
  }

  lemma PopKeepsOthers(stack: seq<Target>)
    requires stack != []
    ensures Top(stack) in stack
    ensures forall x | x in stack && x != Top(stack) :: x in Pop(stack)
  {
    assert stack == Pop(stack) + [Top(stack)];
  }

  lemma AllIsAlone(stack: seq<Target>)
    requires WellStacked(stack) && stack != [] && Top(stack).All?
    ensures stack == [All]
  {
  }

  lemma NodeHasNoComma(v: Option<string>, hasNew: bool)
    ensures ',' !in NodeToReinit(v, hasNew)
    ensures v.Some? && !hasNew ==> Lists(v, NodeToReinit(v, hasNew))
  {
  }

  lemma PushConsistent(w: World, node: string)
    requires Consistent(w) && ',' !in node
    ensures var u := WithDs(w, node).(updated := PushText(w.updated, node));
            Consistent(u) <==> TargetOf(node) in u.ds
    ensures Consistent(w.(updated := PushText(w.updated, node))) <==> TargetOf(node) in w.ds
  {
    PushRefines(w.updated, node);
    PushTidy(Decode(w.updated), TargetOf(node), w.ds.Keys);
    assert w.ds[TargetOf(node) := false].Keys == w.ds.Keys + {TargetOf(node)};
  }

  /** A FileIntegrity reconcile keeps the world consistent exactly when it is not one
      of the two situations, whatever the annotations, configuration and nodes are. */
  lemma FiReconcileConsistent(w: World)
    requires Consistent(w)
    ensures Consistent(FiReconcile(w)) <==> !Gap(w)
  {
    var hasNew := NewConfig(w);
    var node := NodeToReinit(Reinit(w), hasNew);
    NodeHasNoComma(Reinit(w), hasNew);
    PushConsistent(w, node);
    assert PushText(PushText(w.updated, ""), "") == PushText(w.updated, "");
  }

  /** A ConfigMap reconcile always keeps the world consistent. */
  lemma CmReconcileConsistent(w: World)
    requires Consistent(w)
    ensures Consistent(CmReconcile(w))
  {
    hide Tidy, TopText, PopText;
    if w.updated.Some? {
      PopRefines(w.updated.value);
      var stack := Decode(w.updated);
      var t := Top(stack);
      PopTidy(stack, w.ds.Keys);
      assert Swept(w.ds, t).Keys == if t.All? then w.ds.Keys * {All} else w.ds.Keys;
      assert (Swept(w.ds, t) - {t}).Keys == Swept(w.ds, t).Keys - {t};
    }
  }
}
