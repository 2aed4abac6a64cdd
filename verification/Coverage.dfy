/** When a re-init request for a node is still on its way: it is listed on the
    FileIntegrity, or an entry of the AIDE ConfigMap's list covers it. */
module Coverage {
  import opened Text
  import opened Annotations
  import opened UpdatedList

  predicate Covers(t: Target, node: string)
  {
    t == All || t == Node(node)
  }

  predicate ListCovers(v: Option<string>, node: string)
  {
    All in Decode(v) || Node(node) in Decode(v)
  }

  /** Pushing an entry keeps what was covered and covers its own target. */
  lemma PushCovers(v: Option<string>, entry: string, node: string)
    requires ',' !in entry
    ensures ListCovers(v, node) || Covers(TargetOf(entry), node) ==> ListCovers(PushText(v, entry), node)
    ensures TargetOf(entry) in Decode(PushText(v, entry))
  {
    PushRefines(v, entry);
    var stack, t := Decode(v), TargetOf(entry);
    assert t in Push(stack, t);
    assert forall x | x in stack :: t.All? || x in Push(stack, t);
  }

  /** Popping uncovers a node only if the popped entry covered it. */
  lemma PopCovers(v: string, node: string)
    requires ListCovers(Some(v), node)
    ensures ListCovers(PopText(v), node) || Covers(TargetOf(TopText(v)), node)
  {
    PopRefines(v);
    PopKeeps(Decode(Some(v)), if All in Decode(Some(v)) then All else Node(node));
  }

  lemma PopKeeps(stack: seq<Target>, t: Target)
    requires t in stack
    ensures t in Pop(stack) || t == Top(stack)
  {
    assert stack == Pop(stack) + [Top(stack)];
  }

  /** Removing an entry from the FileIntegrity's list drops only nodes that entry covers,
      for every text, duplicates and empty pieces included. */
  lemma RemoveCovers(v: Option<string>, entry: string, node: string)
    requires Lists(v, node) && node != ""
    requires v == Some("") ==> entry == ""
    ensures Lists(RemoveReinit(v, entry), node) || Covers(TargetOf(entry), node)
  {
    if entry != "" && entry != node {
      RemoveReinitKeeps(v, entry, node);
    }
  }
}
