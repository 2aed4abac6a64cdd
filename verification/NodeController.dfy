/** Hold-off and the move from hold-off to re-init (pkg/controller/node/node_controller.go).

    While the machine-config operator updates a node, the node is on the hold-off
    list of each FileIntegrity that scans it; afterwards one write takes it off that
    list and requests a re-init. The hold-off text is shown to stand for a set. */
module NodeController {
  import opened Text
  import opened Annotations
  import opened Handoff
  import HandoffSteps

  // ---------- the hold-off text as a set of nodes ----------

  datatype Held = Nobody | Everybody | Only(names: set<string>)

  ghost function View(v: Option<string>): Held
  {
    if v.None? then Nobody
    else if v.value == "" then Everybody
    else Only(SetOf(Split(v.value, ',')))
  }

  ghost function SetOf(pieces: seq<string>): set<string>
  {
    set p | p in pieces
  }

  ghost predicate Holds(h: Held, node: string)
  {
    h.Everybody? || (h.Only? && node in h.names)
  }

  /** Every piece of the list is a well-formed name. */
  ghost predicate CleanList(v: Option<string>)
  {
    v.Some? && v.value != "" ==> forall p | p in Split(v.value, ',') :: WellFormed(p)
  }

  /** IsNodeIn reads membership in the set, for every text. */
  lemma MembershipRefines(v: Option<string>, node: string)
    ensures Lists(v, node) <==> Holds(View(v), node)
  {
  }

  lemma AddedPieces(v: Option<string>, node: string)
    requires WellFormed(node)
    requires v.Some? && v.value != "" && AddHoldoff(v, node) != v
    ensures AddHoldoff(v, node).Some? && AddHoldoff(v, node).value != ""
    ensures Split(AddHoldoff(v, node).value, ',') == Split(v.value, ',') + [node]
  {
    LooseIsEqual(node, node);
    var pieces := Split(v.value, ',');
    SplitJoin(pieces + [node], ',');
    JoinEmpty(pieces + [node], ',');
  }

  lemma AddRefines(v: Option<string>, node: string)
    requires WellFormed(node) && CleanList(v)
    ensures CleanList(AddHoldoff(v, node))
    ensures View(AddHoldoff(v, node)) ==
            match View(v)
            case Nobody => Only({node})
            case Everybody => Everybody
            case Only(names) => Only(names + {node})
  {
    if v.None? {
      SplitOne(node, ',');
    } else if v.value != "" {
      var pieces := Split(v.value, ',');
      forall p | p in pieces
        ensures Loose(p, node) <==> p == node
      {
        LooseIsEqual(p, node);
      }
      if AddHoldoff(v, node) != v {
        AddedPieces(v, node);
      } else {
        AddNoop(v, node);
      }
    }
  }

  lemma AddNoop(v: Option<string>, node: string)
    requires v.Some? && v.value != ""
    requires AddHoldoff(v, node) == v
    ensures exists p | p in Split(v.value, ',') :: Loose(p, node)
  {
    if forall p | p in Split(v.value, ',') :: !Loose(p, node) {
      JoinAppend(Split(v.value, ','), Trim(node), ',');
    }
  }

  lemma {:induction false} OthersOfClean(pieces: seq<string>, node: string)
    requires WellFormed(node)
    requires forall p | p in pieces :: WellFormed(p)
    ensures Others(pieces, node) == Without(pieces, node)
    ensures node !in pieces ==> Others(pieces, node) == pieces
  {
    if pieces != [] {
      LooseIsEqual(pieces[0], node);
      assert pieces == [pieces[0]] + pieces[1..];
      OthersOfClean(pieces[1..], node);
    }
  }

  lemma RemovedPieces(v: Option<string>, node: string)
    requires WellFormed(node) && CleanList(v) && Lists(v, node) && v.value != ""
    ensures var rest, r := Without(Split(v.value, ','), node), RemoveHoldoff(v, node);
            && (rest == [] ==> r.None?)
            && (rest != [] ==> r.Some? && r.value != "" && Split(r.value, ',') == rest)
  {
    var pieces := Split(v.value, ',');
    OthersOfClean(pieces, node);
    var rest := Without(pieces, node);
    if rest != [] {
      assert rest[0] in rest;
      SplitJoin(rest, ',');
      JoinEmpty(rest, ',');
    }
  }

  /** Removing is removing from the set, except that nothing is removed from "everybody". */
  lemma RemoveRefines(v: Option<string>, node: string)
    requires WellFormed(node) && CleanList(v) && Lists(v, node)
    ensures CleanList(RemoveHoldoff(v, node))
    ensures View(RemoveHoldoff(v, node)) ==
            match View(v)
            case Nobody => Nobody
            case Everybody => Everybody
            case Only(names) => if names == {node} then Nobody else Only(names - {node})
  {
    if v.value == "" {
      RemoveFromAll(node);
    } else {
      RemovedPieces(v, node);
      WithoutSet(Split(v.value, ','), node);
    }
  }

  lemma WithoutSet(pieces: seq<string>, node: string)
    requires node in pieces
    ensures SetOf(Without(pieces, node)) == SetOf(pieces) - {node}
    ensures Without(pieces, node) == [] <==> SetOf(pieces) == {node}
  {
    var rest := Without(pieces, node);
    if rest == [] {
      forall p | p in pieces ensures p == node { assert p != node ==> p in rest; }
      assert SetOf(pieces) == {node};
    } else {
      assert rest[0] in rest;
      assert rest[0] in SetOf(pieces) && rest[0] !in {node};
    }
  }

  lemma RemoveFromAll(node: string)
    requires WellFormed(node)
    ensures RemoveHoldoff(Some(""), node) == Some("")
  {
    assert Split("", ',') == [""];
    assert Trim("") == "" && FoldAll("") == "";
    LooseIsEqual(node, node);
    assert |FoldAll(Trim(node))| > 0;
    assert !Loose("", node);
    assert Others([""], node) == [""];
  }

  /** Taking a node off again restores the text exactly when the list did not already
      name it: it was absent, or everybody was held. */
  lemma RemoveAfterAdd(v: Option<string>, node: string)
    requires WellFormed(node) && CleanList(v)
    ensures Lists(AddHoldoff(v, node), node)
    ensures RemoveHoldoff(AddHoldoff(v, node), node) == v <==> v == Some("") || !Lists(v, node)
  {
    AddRefines(v, node);
    MembershipRefines(AddHoldoff(v, node), node);
    var added := AddHoldoff(v, node);
    if v == Some("") {
      RemoveFromAll(node);
    } else if v.None? {
      SplitOne(node, ',');
      RemovedPieces(added, node);
    } else if Lists(v, node) {
      RemoveRefines(added, node);
      MembershipRefines(RemoveHoldoff(added, node), node);
    } else {
      AddedPieces(v, node);
      var pieces := Split(v.value, ',');
      RemovedPieces(added, node);
      WithoutAppended(pieces, node);
    }
  }

  lemma {:induction false} WithoutAppended(pieces: seq<string>, node: string)
    requires node !in pieces
    ensures Without(pieces + [node], node) == pieces
  {
    if pieces == [] {
      assert ([] + [node])[1..] == [];
    } else {
      WithoutAppended(pieces[1..], node);
      assert (pieces + [node])[1..] == pieces[1..] + [node];
    }
  }

  // ---------- texts nobody checks: exactly when adding and removing take effect ----------

  /** On any text, adding a node makes it held unless a piece only resembles it. */
  lemma AddTakesEffect(v: Option<string>, node: string)
    requires WellFormed(node)
    ensures Lists(AddHoldoff(v, node), node) <==>
            v.None? || Lists(v, node) || forall p | p in Split(v.value, ',') :: !Loose(p, node)
  {
    LooseIsEqual(node, node);
    if v.None? {
      SplitOne(node, ',');
    } else if v.value != "" {
      if AddHoldoff(v, node) != v {
        AddedPieces(v, node);
      } else {
        AddNoop(v, node);
      }
    }
  }

  /** The failing input: a piece with a blank in front is taken for the node when adding, but
      not when reading. */
  lemma BlankPieceHidesNode(node: string)
    requires WellFormed(node)
    ensures AddHoldoff(Some(" " + node), node) == Some(" " + node) && !Lists(Some(" " + node), node)
  {
    var padded := " " + node;
    assert ',' !in padded;
    SplitOne(padded, ',');
    assert padded[1..] == node && IsSpace(padded[0]);
    LooseIsEqual(node, node);
    assert TrimLeft(padded) == TrimLeft(node);
    assert Loose(padded, node);
    assert padded != node by { assert |padded| != |node|; }
  }

  /** Another one: a piece in capital letters is taken for the node as well. */
  lemma CapitalPieceHidesNode()
    ensures AddHoldoff(Some("W"), "w") == Some("W") && !Lists(Some("W"), "w")
  {
    SplitOne("W", ',');
    assert FoldAll(Trim("W")) == FoldAll(Trim("w"));
    assert Loose("W", "w");
  }

  /** The i-th piece is blank and all others match the node. */
  predicate OneBlank(pieces: seq<string>, node: string, i: int)
  {
    && 0 <= i < |pieces| && Trim(pieces[i]) == ""
    && forall j | 0 <= j < |pieces| && j != i :: Loose(pieces[j], node)
  }

  ghost predicate OnlyBlankLeft(pieces: seq<string>, node: string)
  {
    exists i :: OneBlank(pieces, node, i)
  }

  /** On any text, removing a node fails to release it exactly when a single blank piece remains:
      one piece is blank and all others match the node. */
  lemma RemoveTakesEffect(v: Option<string>, node: string)
    requires WellFormed(node) && Lists(v, node)
    ensures Lists(RemoveHoldoff(v, node), node) <==> OnlyBlankLeft(Split(v.value, ','), node)
  {
    LooseIsEqual(node, node);
    var pieces := Split(v.value, ',');
    var rest := Others(pieces, node);
    OneBlankLeft(pieces, node);
    JoinEmpty(rest, ',');
    if rest != [] && rest != [""] {
      assert forall q | q in rest :: ',' !in q;
      SplitJoin(rest, ',');
      assert forall p | p in pieces && Trim(p) == node :: Loose(p, node);
      assert !Lists(RemoveHoldoff(v, node), node);
    } else if rest == [""] {
      assert RemoveHoldoff(v, node) == Some("");
    } else {
      assert RemoveHoldoff(v, node).None?;
    }
    assert Lists(RemoveHoldoff(v, node), node) <==> rest == [""];
  }

  lemma {:induction false} NoneLeft(pieces: seq<string>, node: string)
    ensures Others(pieces, node) == [] <==> forall j | 0 <= j < |pieces| :: Loose(pieces[j], node)
  {
    if pieces != [] {
      NoneLeft(pieces[1..], node);
      assert forall j | 0 < j < |pieces| :: pieces[j] == pieces[1..][j - 1];
    }
  }

  lemma {:induction false} OneBlankLeft(pieces: seq<string>, node: string)
    requires WellFormed(node)
    ensures Others(pieces, node) == [""] <==> OnlyBlankLeft(pieces, node)
  {
    if pieces != [] {
      BlankIsNotLoose(node);
      var tail := pieces[1..];
      OneBlankLeft(tail, node);
      NoneLeft(tail, node);
      if i :| OneBlank(pieces, node, i) {
        if i > 0 {
          assert Loose(pieces[0], node);
          assert OneBlank(tail, node, i - 1);
        } else {
          assert forall j | 0 <= j < |tail| :: tail[j] == pieces[j + 1] && Loose(pieces[j + 1], node);
        }
      }
      if Others(pieces, node) == [""] {
        if Loose(pieces[0], node) {
          var i :| OneBlank(tail, node, i);
          assert OneBlank(pieces, node, i + 1);
        } else {
          assert Others(tail, node) == [];
          assert Trim(pieces[0]) == [""][0];
          assert OneBlank(pieces, node, 0);
        }
      }
    }
  }

  lemma BlankIsNotLoose(node: string)
    requires WellFormed(node)
    ensures forall p | Trim(p) == "" :: !Loose(p, node)
  {
    LooseIsEqual(node, node);
    forall p | Trim(p) == ""
      ensures !Loose(p, node)
    {
      assert |FoldAll(Trim(p))| == 0 && |FoldAll(Trim(node))| > 0;
    }
  }

  /** The failing input: with an empty piece left over, releasing the node holds everybody. */
  lemma TrailingCommaHoldsEverybody(node: string)
    requires WellFormed(node)
    ensures Lists(Some(node + ","), node) && RemoveHoldoff(Some(node + ","), node) == Some("")
  {
    SplitFirst(node, "", ',');
    assert node + [','] + "" == node + ",";
    var pieces := Split(node + ",", ',');
    assert pieces == [node, ""] && node in pieces;
    LooseIsEqual(node, node);
    BlankIsNotLoose(node);
    assert Trim("") == "";
    assert pieces[1..] == [""] && [""][1..] == [];
    assert Others([""], node) == [""];
  }

  // ---------- from hold-off to re-init ----------

  /** The annotations one write of the node controller stores, or None when it skips. */
  function Moved(a: Ann, node: string): Option<Ann>
  {
    if !Lists(Lookup(a, HOLDOFF), node) || Lists(Lookup(a, REINIT), node) then None
    else
      var released := Store(a, HOLDOFF, RemoveHoldoff(Lookup(a, HOLDOFF), node));
      Some(Store(released, REINIT, AddReinit(Lookup(released, REINIT), [node])))
  }

  /** What the write does, for every re-init text: the node leaves hold-off exactly when
      not everybody is held, it enters re-init exactly when its name is not a substring of
      the text, every other node stays where it was, and no other annotation changes. */
  lemma MoveIsOneWrite(a: Ann, node: string, other: string)
    requires WellFormed(node) && WellFormed(other) && other != node
    requires CleanList(Lookup(a, HOLDOFF))
    requires Moved(a, node).Some?
    ensures var b := Moved(a, node).value;
            && (!Lists(Lookup(b, HOLDOFF), node) <==> a[HOLDOFF] != "")
            && (Lists(Lookup(b, REINIT), node) <==> REINIT !in a || !Contains(a[REINIT], node))
            && (Lists(Lookup(b, HOLDOFF), other) <==> Lists(Lookup(a, HOLDOFF), other))
            && (Lists(Lookup(b, REINIT), other) <==> Lists(Lookup(a, REINIT), other))
            && b - {HOLDOFF, REINIT} == a - {HOLDOFF, REINIT}
  {
    hide RemoveHoldoff, AddReinit, Contains, CleanList;
    KeysDiffer();
    var hold, re := Lookup(a, HOLDOFF), Lookup(a, REINIT);
    var b := Moved(a, node).value;
    assert Lookup(b, HOLDOFF) == RemoveHoldoff(hold, node);
    assert Lookup(b, REINIT) == AddReinit(re, [node]);
    RemoveRefines(hold, node);
    MembershipRefines(hold, other);
    MembershipRefines(RemoveHoldoff(hold, node), node);
    MembershipRefines(RemoveHoldoff(hold, node), other);
    AddOneReinit(re, node, other);
  }

  lemma AddOneReinit(re: Option<string>, node: string, other: string)
    requires WellFormed(node) && other != node && !Lists(re, node)
    ensures Lists(AddReinit(re, [node]), node) <==> re.None? || !Contains(re.value, node)
    ensures Lists(AddReinit(re, [node]), other) <==> Lists(re, other)
  {
    if re.None? {
      SplitOne(node, ',');
      assert Join([node], ',') == node;
    } else {
      assert [node][..0] == [];
      assert LastNew(re.value, [node]) == if Contains(re.value, node) then None else Some(node);
      if !Contains(re.value, node) {
        SplitAppend(re.value, node, ',');
        assert re.value + "," + node == re.value + [','] + node;
      }
    }
  }

  /** The substring test loses a request: releasing a node, say worker-1, while a longer
      name such as worker-10 is listed for re-init stores no re-init for it. */
  lemma SubstringLosesRequest(node: string, suffix: string)
    requires WellFormed(node) && WellFormed(node + suffix) && suffix != ""
    ensures var a := map[HOLDOFF := node, REINIT := node + suffix];
            && Moved(a, node).Some?
            && !Lists(Lookup(Moved(a, node).value, HOLDOFF), node)
            && !Lists(Lookup(Moved(a, node).value, REINIT), node)
  {
    KeysDiffer();
    var a := map[HOLDOFF := node, REINIT := node + suffix];
    SplitOne(node, ',');
    SplitOne(node + suffix, ',');
    assert HasPrefix(node + suffix, node);
    assert |node + suffix| != |node|;
    MoveIsOneWrite(a, node, node + suffix);
  }

  /** A whole update of a node that was not held and not listed for re-init: hold it, then
      release it. The hold-off text is back as it was and the node is requested. */
  lemma UpdateCycle(a: Ann, node: string)
    requires WellFormed(node) && CleanList(Lookup(a, HOLDOFF))
    requires !Lists(Lookup(a, HOLDOFF), node)
    requires REINIT in a ==> a[REINIT] != "" && !Contains(a[REINIT], node)
    ensures var held := Store(a, HOLDOFF, AddHoldoff(Lookup(a, HOLDOFF), node));
            var b := Moved(held, node);
            && b.Some?
            && Lookup(b.value, HOLDOFF) == Lookup(a, HOLDOFF)
            && Lists(Lookup(b.value, REINIT), node)
  {
    KeysDiffer();
    var hold, re := Lookup(a, HOLDOFF), Lookup(a, REINIT);
    RemoveAfterAdd(hold, node);
    var held := Store(a, HOLDOFF, AddHoldoff(hold, node));
    assert Lookup(held, REINIT) == re;
    if Lists(re, node) {
      PieceIsSubstring(Split(re.value, ','), node, ',');
    }
    AddOneReinit(re, node, node + "x");
  }

  /** The write is one of the requests the hand-off allows at any moment: it keeps every
      node already listed for re-init. */
  lemma MoveIsAllowed(s: HandoffSteps.Fine, node: string)
    requires WellFormed(node) && Moved(s.w.ann, node).Some?
    requires HandoffSteps.NoCommas(s.w.failed)
    ensures HandoffSteps.Allowed(s, HandoffSteps.Request(Moved(s.w.ann, node).value))
  {
    KeysDiffer();
    var b := Moved(s.w.ann, node).value;
    assert Lookup(b, REINIT) == AddReinit(Reinit(s.w), [node]);
    forall n | Lists(Reinit(s.w), n)
      ensures Lists(Lookup(b, REINIT), n)
    {
      AddReinitKeeps(Reinit(s.w), [node], n);
    }
  }

  // ---------- the loops over FileIntegrities ----------

  datatype Instance = Instance(name: string, ann: Ann)

  /** The stored annotations after the controller has handled the given instances. */
  function StoreAll(stored: map<string, Ann>, fis: seq<Instance>, write: Ann -> Option<Ann>): map<string, Ann>
  {
    if fis == [] then stored
    else
      var last := fis[|fis| - 1];
      var before := StoreAll(stored, fis[..|fis| - 1], write);
      if write(last.ann).Some? then before[last.name := write(last.ann).value] else before
  }

  ghost predicate DistinctNames(fis: seq<Instance>)
  {
    forall i, j | 0 <= i < j < |fis| :: fis[i].name != fis[j].name
  }

  function StoredAt(stored: map<string, Ann>, name: string): Option<Ann>
  {
    if name in stored then Some(stored[name]) else None
  }

  /** Objects that are not among the instances keep what is stored. */
  lemma {:induction false} StoredElsewhere(
      stored: map<string, Ann>, fis: seq<Instance>, write: Ann -> Option<Ann>, name: string)
    requires forall i | 0 <= i < |fis| :: fis[i].name != name
    ensures StoredAt(StoreAll(stored, fis, write), name) == StoredAt(stored, name)
  {
    if fis != [] {
      StoredElsewhere(stored, fis[..|fis| - 1], write, name);
    }
  }

  /** Each FileIntegrity ends up with what its own annotations call for, or as it was stored
      when nothing is to be written. */
  lemma {:induction false} StoredUnder(stored: map<string, Ann>, fis: seq<Instance>, write: Ann -> Option<Ann>, i: nat)
    requires DistinctNames(fis) && i < |fis|
    ensures StoredAt(StoreAll(stored, fis, write), fis[i].name) ==
            if write(fis[i].ann).Some? then write(fis[i].ann) else StoredAt(stored, fis[i].name)
  {
    var init := fis[..|fis| - 1];
    if i == |init| {
      StoredElsewhere(stored, init, write, fis[i].name);
    } else {
      StoredUnder(stored, init, write, i);
    }
  }

  /** A node already listed for re-init keeps its hold-off: the object stays as it is stored. */
  lemma AlreadyRequestedKeepsHold(stored: map<string, Ann>, fis: seq<Instance>, node: string, i: nat)
    requires DistinctNames(fis) && i < |fis| && Lists(Lookup(fis[i].ann, REINIT), node)
    ensures StoredAt(StoreAll(stored, fis, MovedWrite(node)), fis[i].name) == StoredAt(stored, fis[i].name)
  {
    StoredUnder(stored, fis, MovedWrite(node), i);
  }

  /** What addHoldOffAnnotations stores for one FileIntegrity whose list holds well-formed names:
      nothing if the node is held already; otherwise the node is held as well, everybody else stays
      as they were, and no other annotation changes. */
  lemma HoldIsOneWrite(a: Ann, node: string, other: string)
    requires WellFormed(node) && other != node && CleanList(Lookup(a, HOLDOFF))
    ensures HeldWrite(node)(a).None? <==> Lists(Lookup(a, HOLDOFF), node)
    ensures HeldWrite(node)(a).Some? ==>
              var b := HeldWrite(node)(a).value;
              && HOLDOFF in b && b[HOLDOFF] != "" && node in Split(b[HOLDOFF], ',')
              && (Lists(Lookup(b, HOLDOFF), other) <==> Lists(Lookup(a, HOLDOFF), other))
              && b - {HOLDOFF} == a - {HOLDOFF}
  {
    var v := Lookup(a, HOLDOFF);
    AddRefines(v, node);
    MembershipRefines(v, node);
    MembershipRefines(v, other);
    MembershipRefines(AddHoldoff(v, node), node);
    MembershipRefines(AddHoldoff(v, node), other);
  }

  /** So after the loop the node is held by every FileIntegrity it ran over, for distinct names. */
  lemma HeldEverywhere(stored: map<string, Ann>, fis: seq<Instance>, node: string, i: nat)
    requires DistinctNames(fis) && i < |fis| && WellFormed(node) && CleanList(Lookup(fis[i].ann, HOLDOFF))
    requires fis[i].name in stored && stored[fis[i].name] == fis[i].ann
    ensures var after := StoreAll(stored, fis, HeldWrite(node));
            fis[i].name in after && Lists(Lookup(after[fis[i].name], HOLDOFF), node)
  {
    StoredUnder(stored, fis, HeldWrite(node), i);
    HoldIsOneWrite(fis[i].ann, node, node + "x");
  }

  function HeldWrite(node: string): Ann -> Option<Ann>
  {
    a => if Lists(Lookup(a, HOLDOFF), node) || AddHoldoff(Lookup(a, HOLDOFF), node) == Lookup(a, HOLDOFF) then None
         else Some(Store(a, HOLDOFF, AddHoldoff(Lookup(a, HOLDOFF), node)))
  }

  function MovedWrite(node: string): Ann -> Option<Ann>
  {
    a => Moved(a, node)
  }

  lemma StoreHoldoff(a: Ann, v: Option<string>)
    ensures Store(a, HOLDOFF, v) == a <==> v == Lookup(a, HOLDOFF)
  {
    if v == Lookup(a, HOLDOFF) {
      assert Store(a, HOLDOFF, v) == a;
    } else {
      assert Lookup(Store(a, HOLDOFF, v), HOLDOFF) == v;
    }
  }

  /** The API objects the node controller writes; `rejected` names those whose update fails. */
  class NodeReconciler {
    var stored: map<string, Ann>
    const rejected: set<string>

    constructor (stored: map<string, Ann>, rejected: set<string>)
      ensures this.stored == stored && this.rejected == rejected
    {
      this.stored, this.rejected := stored, rejected;
    }

    /** addHoldOffAnnotations: stops at the first rejected update, `done` instances in */
    method AddHoldOffAnnotations(fis: seq<Instance>, node: string) returns (ok: bool, done: nat)
      modifies this`stored
      ensures done <= |fis| && (ok <==> done == |fis|)
      ensures !ok ==> fis[done].name in rejected && HeldWrite(node)(fis[done].ann).Some?
      ensures stored == StoreAll(old(stored), fis[..done], HeldWrite(node))
    {
      hide Lists, AddHoldoff, Store;
      for i := 0 to |fis|
        invariant stored == StoreAll(old(stored), fis[..i], HeldWrite(node))
      {
        var fi := fis[i];
        assert fis[..i + 1][..i] == fis[..i];
        var held := IsNodeIn(fi.ann, node, HOLDOFF);
        if held {
          continue;
        }
        var newAnnotation, needsChange := GetAddedNodeHoldoffAnnotation(fi.ann, node);
        StoreHoldoff(fi.ann, AddHoldoff(Lookup(fi.ann, HOLDOFF), node));
        if !needsChange {
          continue;
        }
        if fi.name in rejected {
          return false, i;
        }
        stored := stored[fi.name := newAnnotation];
      }
      assert fis[..|fis|] == fis;
      return true, |fis|;
    }

    /** removeHoldoffAnnotationAndReinitFileIntegrityDatabases */
    method RemoveHoldoffAndReinit(fis: seq<Instance>, node: string) returns (ok: bool, done: nat)
      modifies this`stored
      ensures done <= |fis| && (ok <==> done == |fis|)
      ensures !ok ==> fis[done].name in rejected && Moved(fis[done].ann, node).Some?
      ensures stored == StoreAll(old(stored), fis[..done], MovedWrite(node))
    {
      KeysDiffer();
      for i := 0 to |fis|
        invariant stored == StoreAll(old(stored), fis[..i], MovedWrite(node))
      {
        var fi := fis[i];
        assert fis[..i + 1][..i] == fis[..i];
        var held := IsNodeIn(fi.ann, node, HOLDOFF);
        if !held {
          continue;
        }
        var requested := IsNodeIn(fi.ann, node, REINIT);
        if requested {
          continue;
        }
        var released, holdChanged := GetRemovedNodeHoldoffAnnotation(fi.ann, node);
        var newReinit, reinitChanged := GetAddedNodeReinitAnnotation(released.value, [node]);
        if !holdChanged && !reinitChanged {
          continue;
        }
        if fi.name in rejected {
          return false, i;
        }
        stored := stored[fi.name := newReinit.value];
      }
      assert fis[..|fis|] == fis;
      return true, |fis|;
    }
  }
}
