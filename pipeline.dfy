/**
 * The plugin sequence of `mdastToHast`: the video plugin, then the callout
 * plugin. Their selections are disjoint (a `leafDirective` against a
 * `containerDirective`) and the video plugin's replacement is an `html` node
 * that neither selects, so the order does not matter.
 */
module Pipeline {
  import opened Mdast
  import opened Engine
  import opened Callout
  import opened Video

  /** No node selected by one plugin is selected by the other. */
  lemma SelectionsDisjoint(p: Props)
    ensures !(IsCallout(p) && IsVideo(p))
  {
  }

  /** The two visits commute on every subtree, whether or not its root is a video directive. */
  lemma {:induction false} VisitsCommute(n: Node)
    ensures Visit(Visit(n, VideoAction), CalloutAction) == Visit(Visit(n, CalloutAction), VideoAction)
    decreases n
  {
    var c := Visit(n, CalloutAction);
    assert c.props.(data := None) == n.props.(data := None);
    if IsVideo(n.props) {
      assert Visit(Replacement(n.props), CalloutAction) == Replacement(n.props);
    } else {
      var left := Visit(Visit(n, VideoAction), CalloutAction);
      var right := Visit(c, VideoAction);
      forall i | 0 <= i < |n.children|
        ensures left.children[i] == right.children[i]
      {
        VisitsCommute(n.children[i]);
      }
      assert left.children == right.children;
    }
  }

  /**
   * Running the video plugin and then the callout plugin, the order of
   * `mdastToHast`, gives the same tree as the other order.
   */
  lemma PluginsCommute(tree: Node)
    requires !IsVideo(tree.props)
    ensures !IsVideo(CalloutPlugin(tree).props)
    ensures CalloutPlugin(VideoPlugin(tree)) == VideoPlugin(CalloutPlugin(tree))
  {
    VisitsCommute(tree);
  }

  /** No node of `n` is a directive of either kind. */
  ghost predicate NoDirectives(n: Node)
    decreases n
  {
    && n.props.kind != "containerDirective"
    && n.props.kind != "leafDirective"
    && forall i :: 0 <= i < |n.children| ==> NoDirectives(n.children[i])
  }

  lemma {:induction false} NoDirectivesUntouched(n: Node)
    requires NoDirectives(n)
    ensures Untouched(n, CalloutAction) && Untouched(n, VideoAction)
    decreases n
  {
    forall i | 0 <= i < |n.children|
      ensures Untouched(n.children[i], CalloutAction) && Untouched(n.children[i], VideoAction)
    {
      NoDirectivesUntouched(n.children[i]);
    }
  }

  /** A document without directives passes through both plugins unchanged. */
  lemma {:induction false} NoDirectivesNoChange(tree: Node)
    requires NoDirectives(tree)
    ensures !IsVideo(tree.props)
    ensures CalloutPlugin(VideoPlugin(tree)) == tree
  {
    NoDirectivesUntouched(tree);
    VisitUntouched(tree, VideoAction);
    VisitUntouched(tree, CalloutAction);
  }
}
