/**
 * The tree as the plugins actually change it: in place. Nodes are records in
 * an arena, a node's `children` are arena indices, and a replacement is an
 * assignment into a parent's `children` at an index. The value tree of
 * `Mdast` is what the arena stands for (`ToNode`), and each method is proved
 * against the plugin functions on that value.
 */
module Arena {
  import opened Mdast
  import opened Engine
  import opened Callout
  import opened Video
  import Pipeline

  /** One stored node: its own fields and the arena indices of its children. */
  datatype Rec = Rec(props: Props, children: seq<nat>)

  /**
   * The root is record 0 and every child is stored after its parent, as in
   * a parser's document order; this rules out cycles.
   */
  predicate WellFormed(nodes: seq<Rec>)
  {
    && |nodes| > 0
    && forall i, k :: 0 <= i < |nodes| && 0 <= k < |nodes[i].children| ==> i < nodes[i].children[k] < |nodes|
  }

  /** The value tree that record `id` stands for. */
  function ToNode(nodes: seq<Rec>, id: nat): Node
    requires WellFormed(nodes) && id < |nodes|
    decreases |nodes| - id
  {
    var cs := nodes[id].children;
    Node(nodes[id].props, seq(|cs|, k requires 0 <= k < |cs| => ToNode(nodes, cs[k])))
  }

  /** A record after the callout visitor has seen it. */
  function CalloutRec(r: Rec): Rec
  {
    Rec(Annotate(r.props, CalloutAction(r.props)), r.children)
  }

  /** The record an `html` replacement is stored as. */
  function HtmlRec(html: string): Rec
  {
    Rec(HtmlNode(html).props, [])
  }

  /**
   * Slot `k` of record `j` after the video visitor has seen the child that
   * stood there in `before`: it holds a new `html` record with the child's
   * fragment if the child was a video directive, and the same child
   * otherwise.
   */
  ghost predicate SlotDone(before: seq<Rec>, after: seq<Rec>, j: nat, k: nat)
  {
    && j < |before| && j < |after|
    && k < |before[j].children| && k < |after[j].children|
    && var c, s := before[j].children[k], after[j].children[k];
       && c < |before|
       && if IsVideo(before[c].props)
          then |before| <= s < |after| && after[s] == HtmlRec(VideoFragment(before[c].props.attributes))
          else s == c
  }

  /**
   * `after` is `before` once the video visitor has seen every child slot:
   * every old record keeps its fields and its number of children, and every
   * slot is done.
   */
  ghost predicate VideoDone(before: seq<Rec>, after: seq<Rec>)
  {
    && |before| <= |after|
    && (forall j :: 0 <= j < |before| ==>
          after[j].props == before[j].props && |after[j].children| == |before[j].children|)
    && forall j, k :: 0 <= j < |before| && 0 <= k < |before[j].children| ==> SlotDone(before, after, j, k)
  }

  /** The arena after the video visitor has met child `c`, standing in slot `index` of record `p`. */
  function VisitSlot(nodes: seq<Rec>, p: nat, index: nat): (next: seq<Rec>)
    requires WellFormed(nodes) && p < |nodes| && index < |nodes[p].children|
    ensures WellFormed(next)
    ensures |nodes| <= |next|
    ensures |next[p].children| == |nodes[p].children|
    ensures forall j :: 0 <= j < |nodes| && j != p ==> next[j] == nodes[j]
    ensures next[p].props == nodes[p].props
    ensures forall k :: 0 <= k < |nodes[p].children| && k != index ==> next[p].children[k] == nodes[p].children[k]
    ensures var c := nodes[p].children[index];
            if IsVideo(nodes[c].props)
            then |next| == |nodes| + 1 && next[p].children[index] == |nodes| &&
                 next[|nodes|] == HtmlRec(VideoFragment(nodes[c].props.attributes))
            else next == nodes
  {
    var c := nodes[p].children[index];
    if IsVideo(nodes[c].props) then
      var stored := nodes + [HtmlRec(VideoFragment(nodes[c].props.attributes))];
      stored[p := stored[p].(children := stored[p].children[index := |stored| - 1])]
    else nodes
  }

  /**
   * How far the video visit over `before` has come: every slot of the records
   * before `p` and the first `index` slots of record `p` are done, and the
   * rest still hold their original children.
   */
  ghost predicate Progress(before: seq<Rec>, nodes: seq<Rec>, p: nat, index: nat)
  {
    && WellFormed(before) && WellFormed(nodes)
    && |before| <= |nodes| && p <= |before|
    && (forall j :: 0 <= j < |before| ==>
          nodes[j].props == before[j].props && |nodes[j].children| == |before[j].children|)
    && (forall j, k :: 0 <= j < p && 0 <= k < |before[j].children| ==> SlotDone(before, nodes, j, k))
    && (p < |before| ==>
          && index <= |before[p].children|
          && (forall k :: 0 <= k < index ==> SlotDone(before, nodes, p, k))
          && (forall k :: index <= k < |before[p].children| ==> nodes[p].children[k] == before[p].children[k]))
    && (forall j :: p < j < |before| ==> nodes[j].children == before[j].children)
  }

  lemma SlotStep(before: seq<Rec>, nodes: seq<Rec>, p: nat, index: nat)
    requires Progress(before, nodes, p, index)
    requires p < |before| && index < |before[p].children|
    ensures Progress(before, VisitSlot(nodes, p, index), p, index + 1)
  {
    var next := VisitSlot(nodes, p, index);
    var c := nodes[p].children[index];
    assert c == before[p].children[index] && c < |before|;
    if IsVideo(nodes[c].props) {
      assert |next| == |nodes| + 1;
      assert forall j :: 0 <= j < |nodes| && j != p ==> next[j] == nodes[j];
      assert next[p].props == nodes[p].props;
      assert next[p].children == nodes[p].children[index := |nodes|];
      assert next[|nodes|] == HtmlRec(VideoFragment(before[c].props.attributes));
      forall j, k | 0 <= j < p && 0 <= k < |before[j].children|
        ensures SlotDone(before, next, j, k)
      {
        assert SlotDone(before, nodes, j, k);
      }
      forall k | 0 <= k < index + 1
        ensures SlotDone(before, next, p, k)
      {
        if k < index {
          assert SlotDone(before, nodes, p, k);
        }
      }
    }
  }

  lemma NextParent(before: seq<Rec>, nodes: seq<Rec>, p: nat)
    requires p < |before| && Progress(before, nodes, p, |before[p].children|)
    ensures Progress(before, nodes, p + 1, 0)
  {
  }

  lemma ProgressDone(before: seq<Rec>, nodes: seq<Rec>)
    requires Progress(before, nodes, |before|, 0)
    ensures VideoDone(before, nodes)
  {
  }

  lemma {:induction false} CalloutArena(before: seq<Rec>, after: seq<Rec>, id: nat)
    requires WellFormed(before) && |after| == |before|
    requires forall j :: 0 <= j < |before| ==> after[j] == CalloutRec(before[j])
    requires id < |before|
    ensures WellFormed(after)
    ensures ToNode(after, id) == CalloutPlugin(ToNode(before, id))
    decreases |before| - id
  {
    assert forall j :: 0 <= j < |before| ==> after[j].children == before[j].children;
    var cs := before[id].children;
    var t := ToNode(before, id);
    var r := ToNode(after, id);
    var v := CalloutPlugin(t);
    forall k | 0 <= k < |cs|
      ensures r.children[k] == v.children[k]
    {
      CalloutArena(before, after, cs[k]);
      assert t.children[k] == ToNode(before, cs[k]);
    }
    assert r.children == v.children;
  }

  lemma {:induction false} VideoArena(before: seq<Rec>, after: seq<Rec>, id: nat)
    requires WellFormed(before) && WellFormed(after) && VideoDone(before, after)
    requires id < |before| && !IsVideo(before[id].props)
    ensures ToNode(after, id) == Visit(ToNode(before, id), VideoAction)
    decreases |before| - id
  {
    var cs := before[id].children;
    var t := ToNode(before, id);
    var r := ToNode(after, id);
    var v := Visit(t, VideoAction);
    forall k | 0 <= k < |cs|
      ensures r.children[k] == v.children[k]
    {
      assert SlotDone(before, after, id, k);
      var c, s := cs[k], after[id].children[k];
      assert t.children[k] == ToNode(before, c);
      assert v.children[k] == Visit(ToNode(before, c), VideoAction);
      assert r.children[k] == ToNode(after, s);
      if IsVideo(before[c].props) {
        assert ToNode(after, s) == HtmlNode(VideoFragment(before[c].props.attributes));
      } else {
        VideoArena(before, after, c);
      }
    }
    assert r.children == v.children;
  }

  /** The parsed document, owned by one pipeline run. */
  class Document {
    var nodes: seq<Rec>

    ghost predicate Valid()
      reads this
    {
      WellFormed(nodes)
    }

    /** The tree the arena currently stands for. */
    function Root(): Node
      reads this
      requires Valid()
    {
      ToNode(nodes, 0)
    }

    constructor (parsed: seq<Rec>)
      requires WellFormed(parsed)
      ensures Valid() && nodes == parsed
    {
      nodes := parsed;
    }

    /**
     * The callout plugin: every stored node is visited once and annotated in
     * place; no record is added, removed or re-linked.
     */
    method ApplyCallout()
      requires Valid()
      modifies this
      ensures Valid()
      ensures |nodes| == |old(nodes)|
      ensures forall j :: 0 <= j < |nodes| ==> nodes[j] == CalloutRec(old(nodes)[j])
      ensures Root() == CalloutPlugin(old(Root()))
    {
      ghost var before := nodes;
      var i := 0;
      while i < |nodes|
        invariant 0 <= i <= |nodes| == |before|
        invariant forall j :: 0 <= j < i ==> nodes[j] == CalloutRec(before[j])
        invariant forall j :: i <= j < |nodes| ==> nodes[j] == before[j]
      {
        CalloutVisitor(i);
        i := i + 1;
      }
      CalloutArena(before, nodes, 0);
    }

    /**
     * The callout visitor, given record `id`: a selected callout gets its
     * `data` object (reused, or created when there is none) with `hName` and
     * `hProperties` assigned; no other record and no other field changes.
     */
    method CalloutVisitor(id: nat)
      requires id < |nodes|
      modifies this
      ensures nodes == old(nodes)[id := CalloutRec(old(nodes)[id])]
    {
      var node := nodes[id];
      if node.props.kind == "containerDirective" && node.props.name.Some? && node.props.name.value in CALLOUT_TYPES {
        var name := node.props.name.value;
        var data := if node.props.data.Some? then node.props.data.value else EmptyData;
        data := data.(hName := Some(CALLOUT_ELEMENT));
        data := data.(hProperties := Some(map["header" := TITLES[name], "variant" := name]));
        nodes := nodes[id := node.(props := node.props.(data := Some(data)))];
      }
    }

    /**
     * The video plugin: every child slot of every stored node is visited;
     * when the child there is a video directive, a new `html` record is stored
     * and written into the parent's `children` at that index. The root has no
     * parent, so it must not be a video directive.
     */
    method ApplyVideo()
      requires Valid() && !IsVideo(nodes[0].props)
      modifies this
      ensures Valid()
      ensures VideoDone(old(nodes), nodes)
      ensures Root() == VideoPlugin(old(Root()))
    {
      ghost var before := nodes;
      var count := |nodes|;
      var p := 0;
      while p < count
        invariant count == |before| && p <= count
        invariant Progress(before, nodes, p, 0)
      {
        var index := 0;
        while index < |nodes[p].children|
          invariant p < count == |before| <= |nodes|
          invariant |nodes[p].children| == |before[p].children|
          invariant Progress(before, nodes, p, index)
        {
          SlotStep(before, nodes, p, index);
          VideoVisitor(index, p);
          index := index + 1;
        }
        NextParent(before, nodes, p);
        p := p + 1;
      }
      ProgressDone(before, nodes);
      VideoArena(before, nodes, 0);
    }

    /**
     * The video visitor, given the child at `index` of record `parent`: a
     * video directive there is replaced, in the parent's `children` at the
     * same index, by a new `html` record holding its fragment.
     */
    method VideoVisitor(index: nat, parent: nat)
      requires WellFormed(nodes) && parent < |nodes| && index < |nodes[parent].children|
      modifies this
      ensures nodes == VisitSlot(old(nodes), parent, index)
    {
      var node := nodes[nodes[parent].children[index]];
      if node.props.kind == "leafDirective" && node.props.name == Some("video") {
        var html := VideoFragment(node.props.attributes);
        nodes := nodes + [HtmlRec(html)];
        var record := nodes[parent];
        nodes := nodes[parent := record.(children := record.children[index := |nodes| - 1])];
      }
    }

    /**
     * The plugins in the order `mdastToHast` installs them, video then
     * callout; the result is also that of the other order.
     */
    method RunPlugins()
      requires Valid() && !IsVideo(nodes[0].props)
      modifies this
      ensures Valid()
      ensures !IsVideo(CalloutPlugin(old(Root())).props)
      ensures Root() == CalloutPlugin(VideoPlugin(old(Root())))
      ensures Root() == VideoPlugin(CalloutPlugin(old(Root())))
    {
      ghost var tree := Root();
      Pipeline.PluginsCommute(tree);
      ApplyVideo();
      ApplyCallout();
    }
  }
}
