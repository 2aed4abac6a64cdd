/** The `updated` annotation of the AIDE ConfigMap as a stack of re-init targets.

    The FileIntegrity controller writes the text, the ConfigMap controller works
    on its last entry and shortens it. The empty entry means "all nodes". */
module UpdatedList {
  import opened Text

  datatype Target = All | Node(name: string)

  /** The targets the text stands for, bottom of the stack first. */
  function Decode(v: Option<string>): (r: seq<Target>)
    ensures v.Some? <==> r != []
  {
    if v.None? then [] else Targets(Split(v.value, ','))
  }

  function Targets(pieces: seq<string>): (r: seq<Target>)
    ensures |r| == |pieces|
    ensures forall i | 0 <= i < |r| :: r[i] == TargetOf(pieces[i])
  {
    seq(|pieces|, i requires 0 <= i < |pieces| => TargetOf(pieces[i]))
  }

  function TargetOf(node: string): Target
  {
    if node == "" then All else Node(node)
  }

  function NameOf(t: Target): string
  {
    if t.All? then "" else t.name
  }

  /** A text for a stack of targets. */
  function Encode(stack: seq<Target>): Option<string>
  {
    if stack == [] then None else Some(Join(Names(stack), ','))
  }

  function Names(stack: seq<Target>): (r: seq<string>)
    ensures |r| == |stack|
    ensures forall i | 0 <= i < |r| :: r[i] == NameOf(stack[i])
  {
    seq(|stack|, i requires 0 <= i < |stack| => NameOf(stack[i]))
  }

  /** Targets that can be written down: names are non-empty and contain no comma. */
  ghost predicate Writable(t: Target)
  {
    t.Node? ==> t.name != "" && ',' !in t.name
  }

  // ---------- the operations of the source, on text ----------

  /** What updateAideConfig stores for `node`; equal to `v` when it writes nothing. */
  function PushText(v: Option<string>, node: string): Option<string>
  {
    if v.None? || node == "" then Some(node)
    else if node in Split(v.value, ',') then v
    else Some(Join(Split(v.value, ',') + [node], ','))
  }

  /** The entry the ConfigMap controller works on. */
  function TopText(v: string): string
  {
    if v == "" then "" else var l := Split(v, ','); l[|l| - 1]
  }

  /** The annotation after the ConfigMap controller is done with that entry. */
  function PopText(v: string): Option<string>
  {
    if v == "" then None
    else
      var l := Split(v, ',');
      if |l| > 1 then Some(Join(l[..|l| - 1], ',')) else None
  }

  /** updateAideConfig's edit of the annotation, with its membership loop. */
  method UpdateAideAnnotation(v: Option<string>, node: string) returns (r: Option<string>, write: bool)
    ensures r == PushText(v, node)
    ensures !write ==> r == v
    ensures !write <==> v.Some? && node != "" && node in Split(v.value, ',')
  {
    if v.None? || node == "" {
      return Some(node), true;
    }
    var list := Split(v.value, ',');
    for i := 0 to |list|
      invariant node !in list[..i]
    {
      if list[i] == node {
        return v, false;
      }
    }
    list := list + [node];
    return Some(Join(list, ',')), true;
  }

  // ---------- the same operations on stacks ----------

  function Push(stack: seq<Target>, t: Target): seq<Target>
  {
    if t.All? then [All]
    else if t in stack then stack
    else stack + [t]
  }

  function Pop(stack: seq<Target>): seq<Target>
    requires stack != []
  {
    stack[..|stack| - 1]
  }

  function Top(stack: seq<Target>): Target
    requires stack != []
  {
    stack[|stack| - 1]
  }

  /** Every stack the controllers build: no target twice, "all" only at the bottom. */
  ghost predicate WellStacked(stack: seq<Target>)
  {
    && (forall i, j | 0 <= i < j < |stack| :: stack[i] != stack[j])
    && (forall i | 0 < i < |stack| :: stack[i] != All)
  }

  // ---------- the text refines the stack ----------

  /** Decoding is a bijection between texts and stacks of writable targets. */
  lemma DecodeEncode(stack: seq<Target>)
    requires forall t | t in stack :: Writable(t)
    ensures Decode(Encode(stack)) == stack
  {
    if stack != [] {
      forall p | p in Names(stack)
        ensures ',' !in p
      {
        var i :| 0 <= i < |stack| && Names(stack)[i] == p;
        assert stack[i] in stack;
      }
      SplitJoin(Names(stack), ',');
      forall i | 0 <= i < |stack|
        ensures Targets(Names(stack))[i] == stack[i]
      {
        assert stack[i] in stack;
      }
    }
  }

  lemma EncodeDecode(v: Option<string>)
    ensures Encode(Decode(v)) == v
    ensures forall t | t in Decode(v) :: Writable(t)
  {
    if v.Some? {
      var l := Split(v.value, ',');
      assert Names(Targets(l)) == l;
      assert forall i | 0 <= i < |l| :: l[i] in l;
    }
  }

  lemma DecodeHas(v: Option<string>, node: string)
    ensures TargetOf(node) in Decode(v) <==> v.Some? && node in Split(v.value, ',')
  {
    if v.Some? {
      var l := Split(v.value, ',');
      if node in l {
        var i :| 0 <= i < |l| && l[i] == node;
        assert Targets(l)[i] == TargetOf(node);
      }
    }
  }

  /** Pushing on the text is pushing on the stack, for every text. */
  lemma PushRefines(v: Option<string>, node: string)
    requires ',' !in node
    ensures Decode(PushText(v, node)) == Push(Decode(v), TargetOf(node))
  {
    if v.None? || node == "" {
      SplitOne(node, ',');
    } else {
      DecodeHas(v, node);
      var l := Split(v.value, ',');
      if node !in l {
        SplitJoin(l + [node], ',');
        assert Targets(l + [node]) == Targets(l) + [TargetOf(node)];
      }
    }
  }

  /** Working on the last entry and shortening the text is top and pop, for every text. */
  lemma PopRefines(v: string)
    ensures TargetOf(TopText(v)) == Top(Decode(Some(v)))
    ensures Decode(PopText(v)) == Pop(Decode(Some(v)))
  {
    var l := Split(v, ',');
    if v == "" {
      assert l == [""];
    } else if |l| > 1 {
      SplitJoin(l[..|l| - 1], ',');
      TargetsPrefix(l, |l| - 1);
    }
  }

  lemma TargetsPrefix(pieces: seq<string>, k: nat)
    requires k <= |pieces|
    ensures Targets(pieces[..k]) == Targets(pieces)[..k]
  {
  }

  // ---------- an all-nodes request survives later single-node requests ----------

  datatype Op = Request(node: string) | Complete

  /** One request or one completion on the text; without an annotation nothing is completed. */
  function Do(v: Option<string>, op: Op): Option<string>
  {
    match op
    case Request(n) => PushText(v, n)
    case Complete => if v.None? then v else PopText(v.value)
  }

  function Run(v: Option<string>, ops: seq<Op>): Option<string>
    decreases |ops|
  {
    if ops == [] then v else Run(Do(v, ops[0]), ops[1..])
  }

  lemma StackStep(stack: seq<Target>, t: Target)
    requires WellStacked(stack)
    ensures WellStacked(Push(stack, t))
    ensures stack != [] ==> WellStacked(Pop(stack))
  {
  }

  lemma PushHas(stack: seq<Target>, t: Target, x: Target)
    ensures x in Push(stack, t) <==> x == t || (!t.All? && x in stack)
  {
  }

  lemma PopHas(stack: seq<Target>)
    requires WellStacked(stack) && stack != []
    ensures forall x | x in Pop(stack) :: x in stack && x != Top(stack)
  {
  }

  lemma DoWellStacked(v: Option<string>, op: Op)
    requires WellStacked(Decode(v))
    requires op.Request? ==> ',' !in op.node
    ensures WellStacked(Decode(Do(v, op)))
  {
    match op {
      case Request(n) =>
        PushRefines(v, n);
        StackStep(Decode(v), TargetOf(n));
      case Complete =>
        if v.Some? {
          PopRefines(v.value);
          StackStep(Decode(v), All);
        }
    }
  }

  /** Whatever is requested and completed, the text stands for a duplicate-free
      stack with "all" only at the bottom. */
  lemma {:induction false} RunWellStacked(v: Option<string>, ops: seq<Op>)
    requires WellStacked(Decode(v))
    requires forall o | o in ops && o.Request? :: ',' !in o.node
    ensures WellStacked(Decode(Run(v, ops)))
    decreases |ops|
  {
    if ops != [] {
      assert ops[0] in ops;
      DoWellStacked(v, ops[0]);
      assert forall o | o in ops[1..] :: o in ops;
      RunWellStacked(Do(v, ops[0]), ops[1..]);
    }
  }

  /** The requests name single nodes, and the list never gets shorter than k entries. */
  ghost predicate StaysAbove(v: Option<string>, ops: seq<Op>, k: nat)
    decreases |ops|
  {
    && k <= |Decode(v)|
    && (ops != [] ==>
          && (ops[0].Request? ==> ops[0].node != "" && ',' !in ops[0].node)
          && StaysAbove(Do(v, ops[0]), ops[1..], k))
  }

  /** From a text whose first k entries are those of `w`, a run that never gets below
      k entries keeps them, and back at k entries the very text `w` is stored. */
  lemma {:induction false} BottomSurvives(v: Option<string>, w: Option<string>, ops: seq<Op>)
    requires StaysAbove(v, ops, |Decode(w)|) && Decode(w) <= Decode(v)
    ensures var end := Run(v, ops);
            && Decode(w) <= Decode(end)
            && (|Decode(end)| == |Decode(w)| ==> end == w)
    decreases |ops|
  {
    if ops == [] {
      EncodeDecode(v);
      EncodeDecode(w);
      assert |Decode(v)| == |Decode(w)| ==> Decode(v) == Decode(w);
    } else {
      match ops[0] {
        case Request(n) => PushRefines(v, n);
        case Complete => if v.Some? { PopRefines(v.value); }
      }
      BottomSurvives(Do(v, ops[0]), w, ops[1..]);
    }
  }

  /** After an all-nodes request, later single-node requests and their completions
      leave it at the bottom, and once they are all popped it is on top again. */
  lemma AllComesBack(v: Option<string>, ops: seq<Op>)
    requires StaysAbove(PushText(v, ""), ops, 1)
    ensures var end := Run(PushText(v, ""), ops);
            && end.Some? && Decode(end)[0] == All
            && (|Decode(end)| == 1 ==> end == Some("") && TopText(end.value) == "")
  {
    var all := PushText(v, "");
    PushRefines(v, "");
    BottomSurvives(all, all, ops);
    assert [All] <= Decode(Run(all, ops));
  }
}
