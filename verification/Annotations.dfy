/** The list-valued annotations of a FileIntegrity (pkg/common/util.go).

    An annotation map is a Go `map[string]string`; a nil map reads like an empty
    one. `None` stands for the nil map a function returns together with "not
    changed". The loops of the source are methods; each is proved to compute the
    function of the stored text that the rest of the project reasons about. */
module Annotations {
  import opened Text

  type Ann = map<string, string>

  const HOLDOFF := "file-integrity.openshift.io/holdoff"
  const REINIT := "file-integrity.openshift.io/re-init"
  const REINIT_ON_FAILED := "file-integrity.openshift.io/re-init-on-failed"

  lemma KeysDiffer()
    ensures HOLDOFF != REINIT && HOLDOFF != REINIT_ON_FAILED && REINIT != REINIT_ON_FAILED
  {
    assert HOLDOFF[28] == 'h' && REINIT[28] == 'r';
    assert |REINIT| == 35 && |REINIT_ON_FAILED| == 45;
  }

  function Lookup(a: Ann, key: string): Option<string>
  {
    if key in a then Some(a[key]) else None
  }

  function Store(a: Ann, key: string, v: Option<string>): Ann
  {
    if v.Some? then a[key := v.value] else a - {key}
  }

  // ---------- what the stored text means ----------

  /** The node is on the list: an empty text names every node. */
  predicate Lists(v: Option<string>, node: string)
  {
    v.Some? && (v.value == "" || node in Split(v.value, ','))
  }

  /** The text after adding a node to the hold-off list; unchanged texts are reported by `==`. */
  function AddHoldoff(v: Option<string>, node: string): Option<string>
  {
    if v.None? then Some(node)
    else if v.value == "" || (exists p | p in Split(v.value, ',') :: Loose(p, node)) then v
    else Some(Join(Split(v.value, ',') + [Trim(node)], ','))
  }

  /** The pieces, trimmed, that do not match the node. */
  function Others(pieces: seq<string>, node: string): (r: seq<string>)
    ensures forall q :: q in r <==> exists p | p in pieces :: !Loose(p, node) && q == Trim(p)
  {
    if pieces == [] then []
    else
      var rest := Others(pieces[1..], node);
      assert pieces == [pieces[0]] + pieces[1..];
      if Loose(pieces[0], node) then rest else [Trim(pieces[0])] + rest
  }

  /** The text after removing a listed node from the hold-off list. */
  function RemoveHoldoff(v: Option<string>, node: string): Option<string>
    requires Lists(v, node)
  {
    var rest := Others(Split(v.value, ','), node);
    if rest == [] then None else Some(Join(rest, ','))
  }

  /** The last of `nodes` that is not a substring of the list, if any. */
  function LastNew(list: string, nodes: seq<string>): Option<string>
  {
    if nodes == [] then None
    else if !Contains(list, nodes[|nodes| - 1]) then Some(nodes[|nodes| - 1])
    else LastNew(list, nodes[..|nodes| - 1])
  }

  /** The text after requesting a re-init of `nodes`. */
  function AddReinit(v: Option<string>, nodes: seq<string>): Option<string>
  {
    if nodes == [] || v == Some("") then v
    else if v.None? then Some(Join(nodes, ','))
    else match LastNew(v.value, nodes)
      case None => v
      case Some(n) => Some(v.value + "," + n)
  }

  /** The pieces different from the node. */
  function Without(pieces: seq<string>, node: string): (r: seq<string>)
    ensures |r| <= |pieces|
    ensures node in pieces ==> |r| < |pieces|
    ensures forall q :: q in r <==> q in pieces && q != node
  {
    if pieces == [] then []
    else
      var rest := Without(pieces[1..], node);
      assert pieces == [pieces[0]] + pieces[1..];
      if pieces[0] == node then rest else [pieces[0]] + rest
  }

  /** The text after removing a node, or with `node == ""` the whole request. */
  function RemoveReinit(v: Option<string>, node: string): Option<string>
  {
    if !Lists(v, node) then v
    else if node == "" || |Split(v.value, ',')| == 1 then None
    else Some(Join(Without(Split(v.value, ','), node), ','))
  }

  // ---------- the functions of the source ----------

  method IsNodeIn(a: Ann, node: string, key: string) returns (r: bool)
    ensures r <==> Lists(Lookup(a, key), node)
  {
    if key !in a {
      return false;
    }
    if a[key] == "" {
      return true;
    }
    var nodes := Split(a[key], ',');
    for i := 0 to |nodes|
      invariant node !in nodes[..i]
    {
      if nodes[i] == node {
        return true;
      }
    }
    return false;
  }

  method HasReinitAnnotation(a: Ann) returns (nodes: seq<string>, exists_: bool, all: bool)
    ensures exists_ <==> REINIT in a
    ensures forall n :: (all || n in nodes) <==> Lists(Lookup(a, REINIT), n)
    ensures all <==> Lookup(a, REINIT) == Some("")
    ensures all ==> nodes == []
    ensures exists_ && !all ==> nodes == Split(a[REINIT], ',')
  {
    if REINIT in a {
      if a[REINIT] == "" {
        return [], true, true;
      }
      return Split(a[REINIT], ','), true, false;
    }
    return [], false, false;
  }

  method GetAddedNodeHoldoffAnnotation(a: Ann, node: string) returns (r: Ann, changed: bool)
    ensures r == Store(a, HOLDOFF, AddHoldoff(Lookup(a, HOLDOFF), node))
    ensures changed <==> r != a
  {
    r := a;
    if HOLDOFF !in a {
      r := r[HOLDOFF := node];
      return r, true;
    }
    if a[HOLDOFF] == "" {
      return r, false;
    }
    var nodes := Split(a[HOLDOFF], ',');
    for i := 0 to |nodes|
      invariant forall p | p in nodes[..i] :: !Loose(p, node)
    {
      if Loose(nodes[i], node) {
        return r, false;
      }
    }
    nodes := nodes + [Trim(node)];
    r := r[HOLDOFF := Join(nodes, ',')];
    JoinAppend(Split(a[HOLDOFF], ','), Trim(node), ',');
    return r, true;
  }

  method GetRemovedNodeHoldoffAnnotation(a: Ann, node: string) returns (r: Option<Ann>, changed: bool)
    ensures changed <==> Lists(Lookup(a, HOLDOFF), node)
    ensures r == if changed then Some(Store(a, HOLDOFF, RemoveHoldoff(Lookup(a, HOLDOFF), node))) else None
  {
    hide Loose, Trim, Split;
    var listed := IsNodeIn(a, node, HOLDOFF);
    if !listed {
      return None, false;
    }
    var nodes := Split(a[HOLDOFF], ',');
    var newNodes: seq<string> := [];
    for i := 0 to |nodes|
      invariant newNodes + Others(nodes[i..], node) == Others(nodes, node)
    {
      if !Loose(nodes[i], node) {
        newNodes := newNodes + [Trim(nodes[i])];
      }
    }
    assert newNodes == Others(nodes, node);
    if newNodes == [] {
      return Some(a - {HOLDOFF}), true;
    }
    return Some(a[HOLDOFF := Join(newNodes, ',')]), true;
  }

  method GetAddedNodeReinitAnnotation(a: Ann, nodes: seq<string>) returns (r: Option<Ann>, changed: bool)
    ensures changed <==> AddReinit(Lookup(a, REINIT), nodes) != Lookup(a, REINIT)
    ensures r.None? ==> !changed
    ensures r.None? <==> nodes == [] || Lookup(a, REINIT) == Some("")
    ensures r.Some? ==> r.value == Store(a, REINIT, AddReinit(Lookup(a, REINIT), nodes))
  {
    changed := false;
    if |nodes| == 0 {
      return None, changed;
    }
    var copy := a;
    if REINIT in a {
      var list := a[REINIT];
      if list == "" {
        return None, changed;
      }
      for i := 0 to |nodes|
        invariant changed <==> LastNew(list, nodes[..i]).Some?
        invariant copy == if changed then a[REINIT := list + "," + LastNew(list, nodes[..i]).value] else a
      {
        assert nodes[..i + 1][..i] == nodes[..i];
        if Contains(list, nodes[i]) {
          continue;
        }
        changed := true;
        copy := copy[REINIT := list + "," + nodes[i]];
      }
      assert nodes[..|nodes|] == nodes;
      assert copy == Store(a, REINIT, AddReinit(Some(list), nodes));
    } else {
      changed := true;
      copy := copy[REINIT := Join(nodes, ',')];
    }
    return Some(copy), changed;
  }

  method GetRemovedNodeReinitAnnotation(a: Ann, node: string) returns (r: Option<Ann>, changed: bool)
    ensures changed <==> Lists(Lookup(a, REINIT), node)
    ensures r == if changed then Some(Store(a, REINIT, RemoveReinit(Lookup(a, REINIT), node))) else None
  {
    var listed := IsNodeIn(a, node, REINIT);
    if !listed {
      return None, false;
    }
    if node == "" {
      return Some(a - {REINIT}), true;
    }
    var nodes := Split(a[REINIT], ',');
    if |nodes| == 1 {
      return Some(a - {REINIT}), true;
    }
    var newNodes: seq<string> := [];
    for i := 0 to |nodes|
      invariant newNodes + Without(nodes[i..], node) == Without(nodes, node)
    {
      if nodes[i] == node {
        continue;
      }
      newNodes := newNodes + [nodes[i]];
    }
    assert newNodes == Without(nodes, node);
    return Some(a[REINIT := Join(newNodes, ',')]), true;
  }

  // ---------- the daemon's own reading of the hold-off list ----------

  datatype HoldCheck = Hold(holding: bool) | NodeNameMissing

  /** The check inlined in the daemon's hold-off loop; None is a nil annotation map. It reads the
      same text with its own loop, and for every text and node name agrees with IsNodeIn. */
  method DaemonHoldCheck(annotations: Option<Ann>, nodeName: string) returns (r: HoldCheck)
    ensures r.NodeNameMissing? <==> annotations.Some? && nodeName == ""
    ensures r.Hold? ==> (r.holding <==> annotations.Some? && Lists(Lookup(annotations.value, HOLDOFF), nodeName))
  {
    if annotations.None? {
      return Hold(false);
    }
    if nodeName == "" {
      return NodeNameMissing;
    }
    var a := annotations.value;
    if HOLDOFF in a {
      var nodeInList := false;
      var nodes := Split(a[HOLDOFF], ',');
      var i := 0;
      while i < |nodes|
        invariant 0 <= i <= |nodes|
        invariant nodeInList <==> nodeName in nodes[..i]
      {
        if nodes[i] == nodeName {
          nodeInList := true;
          break;
        }
        i := i + 1;
      }
      return Hold(a[HOLDOFF] == "" || nodeInList);
    }
    return Hold(false);
  }

  // ---------- requests are never narrowed ----------

  /** Adding a re-init request keeps every node that was already requested. */
  lemma AddReinitKeeps(v: Option<string>, nodes: seq<string>, n: string)
    requires Lists(v, n)
    requires forall x | x in nodes :: ',' !in x
    ensures Lists(AddReinit(v, nodes), n)
  {
    if nodes != [] && v != Some("") {
      match LastNew(v.value, nodes)
      case None =>
      case Some(x) =>
        LastNewIsNew(v.value, nodes);
        SplitAppend(v.value, x, ',');
        assert v.value + "," + x == v.value + [','] + x;
    }
  }

  lemma {:induction false} LastNewIsNew(list: string, nodes: seq<string>)
    ensures match LastNew(list, nodes)
            case None => forall x | x in nodes :: Contains(list, x)
            case Some(n) => n in nodes && !Contains(list, n)
  {
    if nodes != [] {
      LastNewIsNew(list, nodes[..|nodes| - 1]);
      assert nodes == nodes[..|nodes| - 1] + [nodes[|nodes| - 1]];
    }
  }

  /** The last of the requested nodes that is no substring of the text. */
  predicate IsLastNew(text: string, nodes: seq<string>, n: string)
  {
    exists i | 0 <= i < |nodes| ::
      nodes[i] == n && !Contains(text, n) && forall j | i < j < |nodes| :: Contains(text, nodes[j])
  }

  /** Which nodes are listed afterwards: with no list yet exactly the requested ones, otherwise
      those listed before and the last requested one that is no substring of the text. */
  lemma AddReinitLists(v: Option<string>, nodes: seq<string>, n: string)
    requires forall x | x in nodes :: x != "" && ',' !in x
    ensures Lists(AddReinit(v, nodes), n) <==>
            if v.None? then n in nodes else Lists(v, n) || IsLastNew(v.value, nodes, n)
  {
    if v.None? {
      if nodes != [] {
        SplitJoin(nodes, ',');
        JoinEmpty(nodes, ',');
        assert nodes[0] in nodes;
      }
    } else if v.value != "" {
      LastNewPosition(v.value, nodes, n);
      match LastNew(v.value, nodes)
      case None =>
      case Some(x) =>
        LastNewIsNew(v.value, nodes);
        SplitAppend(v.value, x, ',');
        assert v.value + "," + x == v.value + [','] + x;
    }
  }

  lemma {:induction false} LastNewPosition(list: string, nodes: seq<string>, n: string)
    ensures LastNew(list, nodes) == Some(n) <==>
            exists i | 0 <= i < |nodes| ::
              nodes[i] == n && !Contains(list, n) && forall j | i < j < |nodes| :: Contains(list, nodes[j])
  {
    if nodes != [] {
      var before, last := nodes[..|nodes| - 1], nodes[|nodes| - 1];
      LastNewPosition(list, before, n);
      if !Contains(list, last) {
        assert last == nodes[|nodes| - 1];
      } else {
        assert forall i | 0 <= i < |before| :: before[i] == nodes[i];
      }
    }
  }

  /** So of two nodes new to an existing list, only the second is requested. */
  lemma FirstOfTwoIsDropped(list: string, a: string, b: string)
    requires list != "" && a != "" && b != "" && ',' !in a && ',' !in b && a != b
    requires !Contains(list, a) && !Contains(list, b)
    ensures Lists(AddReinit(Some(list), [a, b]), b) && !Lists(AddReinit(Some(list), [a, b]), a)
  {
    assert [a, b][1] == b && [a, b][0] == a;
    AddReinitLists(Some(list), [a, b], a);
    AddReinitLists(Some(list), [a, b], b);
    if a in Split(list, ',') {
      PieceIsSubstring(Split(list, ','), a, ',');
    }
  }

  /** Removing an entry keeps every node except that entry, or widens the list to
      all nodes; removing `""` drops the whole list. */
  lemma RemoveReinitKeeps(v: Option<string>, entry: string, n: string)
    requires Lists(v, n) && n != entry && entry != ""
    requires v != Some("")
    ensures Lists(RemoveReinit(v, entry), n)
  {
    if Lists(v, entry) {
      var pieces := Split(v.value, ',');
      var rest := Without(pieces, entry);
      assert n in rest;
      SplitJoin(rest, ',');
    }
  }
}
