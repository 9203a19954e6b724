/**
 * The callout plugin: a `containerDirective` whose name is one of five
 * categories gets `data.hName` and `data.hProperties`, which tell the HAST
 * converter to emit a `doc-content-callout` element with a header and a
 * variant. Nothing else about the node, and nothing about any other node,
 * changes.
 */
module Callout {
  import opened Mdast
  import opened Engine

  const CALLOUT_TYPES: seq<string> := ["note", "tip", "warning", "important", "caution"]

  const TITLES: map<string, string> :=
    map["note" := "Note", "tip" := "Tip", "warning" := "Warning", "important" := "Important", "caution" := "Caution"]

  const CALLOUT_ELEMENT := "doc-content-callout"

  /** Every category has a display title, so the header of a matched node is always a defined string. */
  lemma TitlesCoverTypes()
    ensures forall c :: c in CALLOUT_TYPES ==> c in TITLES
    ensures TITLES["warning"] == "Warning"
  {
  }

  /** The selection of the callout visitor. */
  predicate IsCallout(p: Props): (b: bool)
    ensures b <==> p.kind == "containerDirective" && p.name.Some? &&
                   p.name.value in {"note", "tip", "warning", "important", "caution"}
    ensures b ==> p.name.value in TITLES
  {
    p.kind == "containerDirective" && p.name.Some? && p.name.value in CALLOUT_TYPES
  }

  /** The properties a matched callout's element gets: its display title and its category. */
  function CalloutProperties(name: string): (props: map<string, string>)
    requires name in CALLOUT_TYPES
    ensures props.Keys == {"header", "variant"}
    ensures props["header"] == TITLES[name] && props["variant"] == name
  {
    map["header" := TITLES[name], "variant" := name]
  }

  /**
   * The `data` object of a matched callout: the existing object, or a new one
   * when there is none, with `hName` and `hProperties` overwritten and every
   * other key as it was.
   */
  function CalloutData(data: Option<Data>, name: string): (d: Data)
    requires name in CALLOUT_TYPES
    ensures d.hName == Some(CALLOUT_ELEMENT)
    ensures d.hProperties == Some(CalloutProperties(name))
    ensures d.rest == RestOf(data)
  {
    var existing := if data.Some? then data.value else EmptyData;
    existing.(hName := Some(CALLOUT_ELEMENT), hProperties := Some(CalloutProperties(name)))
  }

  /** The callout visitor: it annotates exactly the selected nodes and never replaces one. */
  function CalloutAction(p: Props): (a: Action)
    ensures !a.Replace?
    ensures a.SetData? <==> IsCallout(p)
    ensures a.SetData? ==> a.data == CalloutData(p.data, p.name.value)
  {
    if IsCallout(p) then SetData(CalloutData(p.data, p.name.value)) else Keep
  }

  /** The tree after the callout plugin has run over it; the root keeps its fields apart from `data`. */
  function CalloutPlugin(tree: Node): (r: Node)
    ensures r.props.(data := None) == tree.props.(data := None)
    ensures |r.children| == |tree.children|
  {
    Visit(tree, CalloutAction)
  }

  /** The callout visitor never replaces, so every path of the tree survives. */
  lemma {:induction false} CalloutUnreplaced(n: Node, path: seq<nat>)
    ensures Unreplaced(n, path, CalloutAction)
    decreases |path|
  {
    if path != [] && path[0] < |n.children| {
      CalloutUnreplaced(n.children[path[0]], path[1..]);
    }
  }

  /**
   * The plugin keeps the shape of the tree: at every path stands the
   * plugin's result on what stood there before, and no path appears or
   * disappears.
   */
  lemma {:induction false} CalloutAt(tree: Node, path: seq<nat>)
    ensures At(CalloutPlugin(tree), path) ==
            if At(tree, path).Some? then Some(CalloutPlugin(At(tree, path).value)) else None
  {
    CalloutUnreplaced(tree, path);
    VisitAt(tree, path, CalloutAction);
  }

  /**
   * Wherever a selected callout stands in the tree, afterwards the node at the
   * same place has the callout element name and the header and variant of its
   * category, keeps every other field and every other `data` key, and has as
   * many children.
   */
  lemma CalloutMarksMatch(tree: Node, path: seq<nat>, m: Node)
    requires At(tree, path) == Some(m)
    requires IsCallout(m.props)
    ensures At(CalloutPlugin(tree), path).Some?
    ensures var r := At(CalloutPlugin(tree), path).value;
            && r.props.(data := None) == m.props.(data := None)
            && r.props.data.Some?
            && r.props.data.value.hName == Some("doc-content-callout")
            && r.props.data.value.hProperties ==
                 Some(map["header" := TITLES[m.props.name.value], "variant" := m.props.name.value])
            && r.props.data.value.rest == RestOf(m.props.data)
            && |r.children| == |m.children|
  {
    CalloutAt(tree, path);
  }

  /** Wherever a node that is not a selected callout stands, its fields, `data` included, are left alone. */
  lemma CalloutSkipsNonMatch(tree: Node, path: seq<nat>, m: Node)
    requires At(tree, path) == Some(m)
    requires !IsCallout(m.props)
    ensures At(CalloutPlugin(tree), path).Some?
    ensures At(CalloutPlugin(tree), path).value.props == m.props
    ensures |At(CalloutPlugin(tree), path).value.children| == |m.children|
  {
    CalloutAt(tree, path);
  }

  /**
   * `a` and `b` agree everywhere except in `data.hName` and `data.hProperties`:
   * same kind, name, attributes and value, same other `data` keys, and the
   * same number of children, pairwise agreeing in the same way.
   */
  ghost predicate SameOutsideH(a: Node, b: Node)
    decreases a
  {
    && a.props.(data := None) == b.props.(data := None)
    && RestOf(a.props.data) == RestOf(b.props.data)
    && |a.children| == |b.children|
    && forall i :: 0 <= i < |a.children| ==> SameOutsideH(a.children[i], b.children[i])
  }

  /** The plugin writes nothing but `hName` and `hProperties`, anywhere in the tree. */
  lemma {:induction false} CalloutTouchesOnlyH(tree: Node)
    ensures SameOutsideH(tree, CalloutPlugin(tree))
    decreases tree
  {
    var r := CalloutPlugin(tree);
    forall i | 0 <= i < |tree.children|
      ensures SameOutsideH(tree.children[i], r.children[i])
    {
      assert r.children[i] == CalloutPlugin(tree.children[i]);
      CalloutTouchesOnlyH(tree.children[i]);
    }
  }

  /** Running the plugin a second time changes nothing: its writes overwrite, they do not accumulate. */
  lemma {:induction false} CalloutIdempotent(tree: Node)
    ensures CalloutPlugin(CalloutPlugin(tree)) == CalloutPlugin(tree)
    decreases tree
  {
    var once := CalloutPlugin(tree);
    var twice := CalloutPlugin(once);
    forall i | 0 <= i < |tree.children|
      ensures twice.children[i] == once.children[i]
    {
      assert once.children[i] == CalloutPlugin(tree.children[i]);
      assert twice.children[i] == CalloutPlugin(once.children[i]);
      CalloutIdempotent(tree.children[i]);
    }
    assert twice.children == once.children;
  }

  /** The scenario `:::warning` / `Be careful.` / `:::`. */
  lemma WarningExample()
    ensures var text := Node(Props("text", None, None, None, Some("Be careful.")), []);
            var paragraph := Node(Props("paragraph", None, None, None, None), [text]);
            var block := Node(Props("containerDirective", Some("warning"), Some(map[]), None, None), [paragraph]);
            CalloutPlugin(block) ==
              Node(block.props.(data := Some(Data(Some("doc-content-callout"),
                                                  Some(map["header" := "Warning", "variant" := "warning"]),
                                                  map[]))),
                   [paragraph])
  {
    var text := Node(Props("text", None, None, None, Some("Be careful.")), []);
    var paragraph := Node(Props("paragraph", None, None, None, None), [text]);
    var block := Node(Props("containerDirective", Some("warning"), Some(map[]), None, None), [paragraph]);
    assert Untouched(paragraph, CalloutAction) by {
      assert Untouched(text, CalloutAction);
    }
    VisitUntouched(paragraph, CalloutAction);
    assert CalloutPlugin(block).children == [paragraph];
  }
}
