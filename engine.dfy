/**
 * The rewrite engine: a pre-order visit of the whole tree that asks a visitor,
 * for each node, what to do with it. The visitor's answer is a tagged result
 * instead of a side effect: leave the node alone, assign its `data`, or put a
 * different node in its place in the parent's `children`.
 */
module Engine {
  import opened Mdast

  datatype Action =
    | Keep
    | SetData(data: Data)
    | Replace(node: Node)

  /** The node's own fields after the visitor's action (a replacement is handled by `Visit`). */
  function Annotate(p: Props, a: Action): (q: Props)
    ensures q.(data := p.data) == p
    ensures a.SetData? ==> q.data == Some(a.data)
    ensures !a.SetData? ==> q == p
  {
    if a.SetData? then p.(data := Some(a.data)) else p
  }

  /**
   * The tree after a pre-order visit of `n` with the visitor `act`: the node
   * is visited first, then its children in order. A replaced node is not
   * entered, since its children are no longer part of the tree.
   */
  function Visit(n: Node, act: Props -> Action): (r: Node)
    ensures act(n.props).Replace? ==> r == act(n.props).node
    ensures !act(n.props).Replace? ==> r.props.(data := n.props.data) == n.props && |r.children| == |n.children|
    ensures act(n.props).Keep? ==> r.props == n.props
    decreases n
  {
    var a := act(n.props);
    if a.Replace? then a.node
    else Node(Annotate(n.props, a), seq(|n.children|, i requires 0 <= i < |n.children| => Visit(n.children[i], act)))
  }

  /** No node on the way from `n` down to the end of `path` (the end itself excluded) is replaced. */
  ghost predicate Unreplaced(n: Node, path: seq<nat>, act: Props -> Action)
    decreases |path|
  {
    path == [] ||
    (!act(n.props).Replace? && (path[0] < |n.children| ==> Unreplaced(n.children[path[0]], path[1..], act)))
  }

  /** The visitor leaves every node of `n` alone. */
  ghost predicate Untouched(n: Node, act: Props -> Action)
    decreases n
  {
    act(n.props).Keep? && forall i :: 0 <= i < |n.children| ==> Untouched(n.children[i], act)
  }

  /**
   * A visit keeps every position of the tree that is not below a replaced
   * node: what stands at `path` afterwards is the visit of what stood there
   * before, and a path that did not exist still does not.
   */
  lemma {:induction false} VisitAt(n: Node, path: seq<nat>, act: Props -> Action)
    requires Unreplaced(n, path, act)
    ensures At(Visit(n, act), path) == if At(n, path).Some? then Some(Visit(At(n, path).value, act)) else None
    decreases |path|
  {
    if path != [] {
      var v := Visit(n, act);
      assert |v.children| == |n.children|;
      if path[0] < |n.children| {
        assert v.children[path[0]] == Visit(n.children[path[0]], act);
        VisitAt(n.children[path[0]], path[1..], act);
      }
    }
  }

  /** A visit whose visitor selects no node gives back the tree it was given. */
  lemma {:induction false} VisitUntouched(n: Node, act: Props -> Action)
    requires Untouched(n, act)
    ensures Visit(n, act) == n
    decreases n
  {
    var v := Visit(n, act);
    forall i | 0 <= i < |n.children|
      ensures v.children[i] == n.children[i]
    {
      VisitUntouched(n.children[i], act);
    }
    assert v.children == n.children;
  }
}
