/**
 * The markdown syntax tree (mdast) that the parser hands to the plugins.
 *
 * A node is split into its own fields (`Props`) and its ordered children, so
 * that the value form here and the arena form in `Arena` share one record of
 * fields.
 */
module Mdast {

  datatype Option<+T> = None | Some(value: T)

  /**
   * A node's `data` object. The callout plugin writes `hName` and
   * `hProperties`; every other key the parser or an earlier plugin put there
   * is kept in `rest`.
   */
  datatype Data = Data(hName: Option<string>, hProperties: Option<map<string, string>>, rest: map<string, string>)

  /** The object `{}` that the callout plugin creates when a node has no `data`. */
  const EmptyData := Data(None, None, map[])

  /** Everything a node carries besides its children; `kind` is mdast's `type`. */
  datatype Props = Props(
    kind: string,
    name: Option<string>,
    attributes: Option<map<string, string>>,
    data: Option<Data>,
    value: Option<string>)

  datatype Node = Node(props: Props, children: seq<Node>)

  /** The keys of `data` other than `hName` and `hProperties`; none when there is no `data`. */
  function RestOf(data: Option<Data>): map<string, string>
  {
    if data.Some? then data.value.rest else map[]
  }

  /** The subtree reached by following child indices from `n`, if every index exists. */
  function At(n: Node, path: seq<nat>): Option<Node>
    decreases |path|
  {
    if path == [] then Some(n)
    else if path[0] < |n.children| then At(n.children[path[0]], path[1..])
    else None
  }
}
