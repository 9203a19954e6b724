# Callout and video rewrite rules of the SFDocs plugins demo

This project models the two remark plugins of `hands-on-demo.js` and proves properties of them. Both plugins rewrite the markdown syntax tree (mdast) between parsing and conversion to HTML.

- **Callout plugin.** A `containerDirective` named `note`, `tip`, `warning`, `important` or `caution` gets `data.hName = "doc-content-callout"` and `data.hProperties = {header, variant}`. The header comes from a fixed title table.
- **Video plugin.** A `leafDirective` named `video` is replaced, at its index in its parent's `children`, by an `html` node. That node's value is a YouTube `iframe` fragment, a local `<video>` fragment, or the empty string, chosen by the `type` attribute.

`mdastToHast` installs the video plugin first and the callout plugin second.

The project has six modules:

- `Mdast` (`mdast.dfy`) is the tree model. A node is its own fields (`Props`: `type` written as `kind`, then `name`, `attributes`, `data` and `value`) plus an ordered sequence of children.
- `Engine` (`engine.dfy`) is the rewrite engine. `Visit` is a pre-order visit that asks a visitor what to do with each node. The answer is a tagged result: keep the node, assign its `data`, or replace it in its parent.
- `Callout` (`callout.dfy`) and `Video` (`video.dfy`) give each plugin's visitor and the lemmas about that plugin. `Video` also has an independent reader for the HTML fragment, used to prove that the fragment carries the title and the source.
- `Pipeline` (`pipeline.dfy`) proves that the two plugins commute.
- `Arena` (`arena.dfy`) holds the in-place form. In class `Document`, the tree is an arena of records whose `children` are indices. A plugin run is a loop that calls a visitor method per node (callouts) or per child slot (videos). The video visitor appends an `html` record and assigns it into the parent's `children` at the same index. `ToNode` maps the arena back to the value tree. Each method is proved against the plugin functions on the tree that the arena stands for.

The parsed tree is an input: `Document`'s constructor takes an arena whose children are stored after their parents, with the root at index 0.

Two behaviours of the JavaScript are worth stating outright:

- **Missing attributes.** A missing `src` or `title` prints as the text `undefined`, because a template literal interpolates `undefined` that way.
- **Replacements are not entered.** Like `unist-util-visit`, the model does not visit a replacement node; the traversal goes on at the next index. The replacement is an `html` node without children that neither visitor selects, so visiting it would change nothing.

## Model

| member | source | states |
|---|---|---|
| `Callout.TitlesCoverTypes` | hands-on-demo.js:24-25 | every category in `CALLOUT_TYPES` has an entry in `TITLES` (so a matched node's header is always defined); `warning` has title `Warning` |
| `Callout.IsCallout` | hands-on-demo.js:29 | a node is selected exactly when it is a `containerDirective` whose name is one of `note`, `tip`, `warning`, `important`, `caution`; a selected name always has a title |
| `Callout.CalloutProperties` | hands-on-demo.js:32 | the element properties have exactly the keys `header` and `variant`, holding the category's title and the category itself |
| `Callout.CalloutData` | hands-on-demo.js:30-32 | the resulting `data` has the callout element name and the category's properties, and keeps every other key of the existing `data` object (none when a new object is created) |
| `Callout.CalloutAction` | hands-on-demo.js:29-33 | the callout visitor never replaces a node; it assigns `data` exactly when the node is a `containerDirective` whose name is one of the five categories |
| `Callout.CalloutPlugin` | hands-on-demo.js:27-34 | the root keeps every field except `data`, and keeps its number of children |
| `Callout.CalloutAt` | hands-on-demo.js:28-34 | the plugin keeps the tree's shape: at every path stands the plugin's result on the old subtree there, and no path appears or disappears |
| `Callout.CalloutMarksMatch` | hands-on-demo.js:29-32 | a selected callout at any position ends with `hName == "doc-content-callout"` and `hProperties == {header: TITLES[name], variant: name}`; it keeps its kind, name, attributes, value, other `data` keys and child count |
| `Callout.CalloutSkipsNonMatch` | hands-on-demo.js:29 | a node at any position that is not a selected callout keeps all its fields, `data` included, and its child count |
| `Callout.CalloutTouchesOnlyH` | hands-on-demo.js:30-32 | anywhere in the tree, the plugin changes nothing but `data.hName` and `data.hProperties`: no kind, name, attribute, value, child list or other `data` key changes |
| `Callout.CalloutIdempotent` | hands-on-demo.js:31-32 | running the plugin twice gives the same tree as running it once |
| `Callout.WarningExample` | hands-on-demo.js:29-32 | `:::warning` around the paragraph `Be careful.` becomes the callout element with header `Warning` and variant `warning`, with unchanged children |
| `Video.IsVideo` | hands-on-demo.js:45 | a node is selected exactly when it is a `leafDirective` named `video`; an `html` node never is |
| `Video.Lookup` | hands-on-demo.js:46 | reading a key out of `node.attributes \|\| {}` finds a value exactly when there are attributes and they hold that key, and the value found is the attribute's value |
| `Video.Interpolate` | hands-on-demo.js:50-52 | an absent value prints as `undefined`; a present string prints as itself |
| `Video.ReadEmbed` | hands-on-demo.js:46-53 | a YouTube embed exactly when `type` is `youtube`, a local one exactly when it is `local`; the embed's title and source are the interpolated `title` and `src` attributes |
| `Video.Render` | hands-on-demo.js:48-53 | the fragment is empty exactly when there is no embed |
| `Video.VideoFragment` | hands-on-demo.js:46-53 | the fragment is empty exactly when `type` is absent or is neither `youtube` nor `local` |
| `Video.Replacement` | hands-on-demo.js:55 | the replacement is an `html` node with no children, which the video rule does not select, and whose value is the fragment |
| `Video.VideoAction` | hands-on-demo.js:45-55 | the video visitor never assigns `data`; it replaces a node exactly when the node is a `leafDirective` named `video`, and replaces it with that node's `html` replacement |
| `Video.VideoPlugin` | hands-on-demo.js:43-57 | the root keeps its fields and its number of children; the root must not be a video directive, because it has no parent to write into |
| `Video.VideoReplacesMatch` | hands-on-demo.js:45-55 | a video directive at any path that is not under another video directive is replaced, at the same path (same parent, same index), by the `html` node carrying its fragment |
| `Video.VideoKeepsSiblings` | hands-on-demo.js:55 | a parent keeps its fields and its child count; each video child becomes its `html` node at the same index; every other child keeps its fields and its child count; this holds for every parent not under a video directive |
| `Video.VideoLeavesNoVideo` | hands-on-demo.js:45-55 | after the visit no video directive is left anywhere in the tree |
| `Video.VideoIdempotent` | hands-on-demo.js:43-57 | running the video plugin twice gives the same tree as running it once |
| `Video.RenderRoundTrip` | hands-on-demo.js:48-53 | when the title has no `<` and the source has no `"`, the title and source can be read back exactly out of the fragment (the title from the title `div`, the source from the `iframe` or `source` element), and so can the kind of embed |
| `Video.RenderInjective` | hands-on-demo.js:48-53 | two such embeds with the same fragment are the same embed |
| `Video.MissingTitleShowsUndefined` | hands-on-demo.js:46-50 | a `youtube` directive without `title` shows `undefined` in its title `div` and its `src` in the `iframe` |
| `Video.YouTubeExample` | hands-on-demo.js:49-50 | `::video{src="https://x/y" title="Demo" type="youtube"}` renders the wrapper `div`, the title `div` with `Demo` and the `iframe` pointing at `https://x/y` |
| `Video.LocalExample` | hands-on-demo.js:51-52 | `::video{src="clip.mp4" title="Demo" type="local"}` renders the wrapper `div`, the title `div` with `Demo` and a `<video controls>` whose `source` points at `clip.mp4` with type `video/mp4` |
| `Engine.Visit` | hands-on-demo.js:28 | the visit of the `visit(tree, …)` calls (also line 44): a replaced node is its replacement; any other node keeps its fields apart from `data` and its child count, and keeps `data` too when the visitor leaves it alone. Its full specification is `Engine.VisitAt` and `Engine.VisitUntouched` |
| `Engine.VisitAt` | hands-on-demo.js:43-57 | a visit keeps every position not under a replaced node: what stands there afterwards is the visit of what stood there before |
| `Engine.VisitUntouched` | hands-on-demo.js:27-34 | a visit whose visitor selects no node gives back the same tree |
| `Pipeline.SelectionsDisjoint` | hands-on-demo.js:29-45 | no node is selected by both plugins |
| `Pipeline.VisitsCommute` | hands-on-demo.js:29-55 | the callout visit and the video visit commute on every subtree |
| `Pipeline.PluginsCommute` | hands-on-demo.js:87-88 | video then callout (the installed order) gives the same tree as callout then video, and the callout plugin keeps the root a non-video node, so the other order is defined |
| `Pipeline.NoDirectivesNoChange` | hands-on-demo.js:85-91 | a document with no directive nodes passes through both plugins unchanged |
| `Arena.CalloutArena` | hands-on-demo.js:28-34 | annotating every record of a well-formed arena in place is the callout plugin on the tree the arena stands for |
| `Arena.VideoArena` | hands-on-demo.js:44-56 | once every child slot holds either its old child or a new `html` record with the old child's fragment (when that child was a video directive), the arena stands for the video plugin's result |
| `Arena.VisitSlot` | hands-on-demo.js:55 | the arena after the video visitor meets slot `index` of record `p`: the arena stays well formed and only grows; no other record and no other slot changes; a video child is replaced in that slot by a newly stored `html` record with its fragment, any other child leaves the arena as it was |
| `Arena.Document.constructor` | hands-on-demo.js:104 | the document owns the parsed arena as given |
| `Arena.Document.CalloutVisitor` | hands-on-demo.js:29-32 | the visited record is annotated as the callout visitor says; every other record is unchanged |
| `Arena.Document.ApplyCallout` | hands-on-demo.js:27-34 | every record is annotated in place, none is added or re-linked, and the arena then stands for the callout plugin's result on the old tree |
| `Arena.Document.VideoVisitor` | hands-on-demo.js:45-55 | a video child at `parent.children[index]` is replaced by a newly stored `html` record at that same index |
| `Arena.Document.ApplyVideo` | hands-on-demo.js:43-57 | every old record keeps its fields and its child count; every slot holds its old child, or a new `html` record with that child's fragment when the child was a video directive; the arena then stands for the video plugin's result |
| `Arena.Document.RunPlugins` | hands-on-demo.js:85-90 | after the plugins run in `mdastToHast`'s order, the arena stands for the video-then-callout result, which equals the callout-then-video result |

## Left out

- **Pipeline construction** (`hands-on-demo.js:12-16,77-98`) is not modelled. `unified`, `remark-parse`, `remark-directive`, `remark-rehype` and `rehype-stringify` are foreign libraries. The parsed tree is an input; conversion to HAST and serialisation to HTML are not modelled.
- **`unist-util-visit`** is not transcribed. The value model specifies its effect: a pre-order visit where a replaced node is not entered.
  - The JavaScript library does go on into the replaced node's old children, but they are no longer part of the tree, so this changes no result.
  - The arena methods visit records in storage order, not in tree order. Neither visitor reads anything but the node it is given, so the order does not change the result. The arena may also still hold detached records: the old video nodes and their subtrees. The video pass visits them in storage order; in JavaScript, `unist-util-visit` also goes on into a replaced node's old children. The callout pass (`Arena.Document.ApplyCallout`) also annotates the detached records, which JavaScript cannot reach from the root after the video pass. Nothing reachable from the root differs: `ApplyCallout` ensures that the arena stands for `CalloutPlugin` of the old tree.
- **Throwing on a root video directive** is not modelled. The JavaScript would throw a `TypeError` at `parent.children`; here it is a precondition (`Video.VideoPlugin`, `Arena.Document.ApplyVideo`, `Arena.Document.RunPlugins`).
- **Demo output** (`hands-on-demo.js:62-74,101-116`) is left out: console logging, JSON printing and the sample markdown are I/O.
- **`allowDangerousHtml`** (`hands-on-demo.js:89,96`) and escaping are left out. The fragment is raw, unescaped interpolation. `Video.RenderRoundTrip` therefore holds only when the title has no `<` and the source has no `"`; without that condition, two different directives can give the same fragment.
- **Value types.** Attribute values, `hProperties` values and the other `data` keys are strings. A `null` attribute value (which would print as `null`) and non-string `data` entries are not modelled.
- **The `html` replacement** `{type: "html", value}` has no `children` key in JavaScript. Here it has an empty child sequence; no traversal can tell the two apart.
- **Object identity and aliasing** are not modelled beyond the arena. Whether a record is reachable from two slots is not tracked, and `ToNode` reads the arena as a tree value.
