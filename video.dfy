/**
 * The video plugin: a `leafDirective` named `video` is replaced, at its index
 * in its parent's children, by an `html` node whose value is an HTML fragment
 * built from the directive's `src`, `title` and `type` attributes.
 */
module Video {
  import opened Mdast
  import opened Engine

  /** The embed a video directive asks for, read off its attributes. */
  datatype Embed = NoEmbed | YouTube(title: string, src: string) | LocalFile(title: string, src: string)

  const OPEN := "<div class=\"video-plugin-div\"><div class=\"video-plugin-title\">"
  const YOUTUBE_MID := "</div><iframe src=\""
  const YOUTUBE_CLOSE := "\"></iframe></div>"
  const LOCAL_MID := "</div><video controls><source src=\""
  const LOCAL_CLOSE := "\" type=\"video/mp4\"></video></div>"

  /** The selection of the video visitor. */
  predicate IsVideo(p: Props): (b: bool)
    ensures b <==> p.kind == "leafDirective" && p.name.Some? && p.name.value == "video"
    ensures b ==> p.kind != "html"
  {
    p.kind == "leafDirective" && p.name == Some("video")
  }

  /** `(node.attributes || {})[key]`: absent when there are no attributes or no such key. */
  function Lookup(attributes: Option<map<string, string>>, key: string): (v: Option<string>)
    ensures v.Some? <==> attributes.Some? && key in attributes.value
    ensures v.Some? ==> v.value == attributes.value[key]
  {
    if attributes.Some? && key in attributes.value then Some(attributes.value[key]) else None
  }

  /** What a template literal `${v}` prints: the string itself, or `undefined` for an absent value. */
  function Interpolate(v: Option<string>): (s: string)
    ensures v.None? ==> s == "undefined"
    ensures v.Some? ==> s == v.value
  {
    if v.Some? then v.value else "undefined"
  }

  /**
   * The destructuring of `src`, `title` and `type` and the dispatch on
   * `type`: only the exact strings `youtube` and `local` ask for an embed.
   */
  function ReadEmbed(attributes: Option<map<string, string>>): (e: Embed)
    ensures e.YouTube? <==> Lookup(attributes, "type") == Some("youtube")
    ensures e.LocalFile? <==> Lookup(attributes, "type") == Some("local")
    ensures !e.NoEmbed? ==> e.title == Interpolate(Lookup(attributes, "title"))
    ensures !e.NoEmbed? ==> e.src == Interpolate(Lookup(attributes, "src"))
  {
    var src := Interpolate(Lookup(attributes, "src"));
    var title := Interpolate(Lookup(attributes, "title"));
    var kind := Lookup(attributes, "type");
    if kind == Some("youtube") then YouTube(title, src)
    else if kind == Some("local") then LocalFile(title, src)
    else NoEmbed
  }

  /** The HTML fragment of an embed; it is empty exactly when there is no embed. */
  function Render(e: Embed): (html: string)
    ensures html == "" <==> e.NoEmbed?
  {
    match e
    case NoEmbed => ""
    case YouTube(title, src) => OPEN + title + YOUTUBE_MID + src + YOUTUBE_CLOSE
    case LocalFile(title, src) => OPEN + title + LOCAL_MID + src + LOCAL_CLOSE
  }

  /** The fragment of a video directive; it is empty exactly when `type` is absent or neither `youtube` nor `local`. */
  function VideoFragment(attributes: Option<map<string, string>>): (html: string)
    ensures html == "" <==> Lookup(attributes, "type") !in {Some("youtube"), Some("local")}
  {
    Render(ReadEmbed(attributes))
  }

  /** The node `{type: "html", value: html}`. */
  function HtmlNode(html: string): Node
  {
    Node(Props("html", None, None, None, Some(html)), [])
  }

  /** The replacement for a video directive with fields `p`. */
  function Replacement(p: Props): (r: Node)
    ensures r.props.kind == "html" && r.children == [] && !IsVideo(r.props)
    ensures r.props.value == Some(VideoFragment(p.attributes))
  {
    HtmlNode(VideoFragment(p.attributes))
  }

  /** The video visitor: it replaces exactly the selected nodes and annotates none. */
  function VideoAction(p: Props): (a: Action)
    ensures !a.SetData?
    ensures a.Replace? <==> IsVideo(p)
    ensures a.Replace? ==> a.node == Replacement(p)
  {
    if IsVideo(p) then Replace(Replacement(p)) else Keep
  }

  /**
   * The tree after the video plugin has run over it. The root must not be a
   * video directive: the visitor writes into the parent's children, and the
   * root has no parent.
   */
  function VideoPlugin(tree: Node): (r: Node)
    requires !IsVideo(tree.props)
    ensures r.props == tree.props
    ensures |r.children| == |tree.children|
  {
    Visit(tree, VideoAction)
  }

  /**
   * Wherever a video directive stands below no other video directive, the
   * node at the same place afterwards (same parent, same index) is the `html`
   * node carrying its fragment.
   */
  lemma VideoReplacesMatch(tree: Node, path: seq<nat>, m: Node)
    requires !IsVideo(tree.props)
    requires Unreplaced(tree, path, VideoAction)
    requires At(tree, path) == Some(m)
    requires IsVideo(m.props)
    ensures At(VideoPlugin(tree), path) == Some(HtmlNode(VideoFragment(m.props.attributes)))
  {
    VisitAt(tree, path, VideoAction);
  }

  /**
   * A parent that is not below a video directive keeps its fields and its
   * number of children; each video child is replaced by its `html` node at the
   * same index, and every other child keeps its fields and its number of
   * children.
   */
  lemma VideoKeepsSiblings(tree: Node, path: seq<nat>, p: Node)
    requires !IsVideo(tree.props)
    requires Unreplaced(tree, path, VideoAction)
    requires At(tree, path) == Some(p)
    requires !IsVideo(p.props)
    ensures At(VideoPlugin(tree), path).Some?
    ensures var r := At(VideoPlugin(tree), path).value;
            && r.props == p.props
            && |r.children| == |p.children|
            && forall j :: 0 <= j < |p.children| ==>
                 if IsVideo(p.children[j].props)
                 then r.children[j] == HtmlNode(VideoFragment(p.children[j].props.attributes))
                 else r.children[j].props == p.children[j].props && |r.children[j].children| == |p.children[j].children|
  {
    VisitAt(tree, path, VideoAction);
    var r := Visit(p, VideoAction);
    forall j | 0 <= j < |p.children|
      ensures r.children[j] == Visit(p.children[j], VideoAction)
    {
    }
  }

  /** After the plugin no video directive is left anywhere, so one pass suffices. */
  lemma {:induction false} VideoLeavesNoVideo(n: Node)
    ensures Untouched(Visit(n, VideoAction), VideoAction)
    decreases n
  {
    var r := Visit(n, VideoAction);
    if !IsVideo(n.props) {
      forall i | 0 <= i < |r.children|
        ensures Untouched(r.children[i], VideoAction)
      {
        assert r.children[i] == Visit(n.children[i], VideoAction);
        VideoLeavesNoVideo(n.children[i]);
      }
    }
  }

  /** Running the plugin a second time changes nothing. */
  lemma VideoIdempotent(tree: Node)
    requires !IsVideo(tree.props)
    ensures VideoPlugin(VideoPlugin(tree)) == VideoPlugin(tree)
  {
    VideoLeavesNoVideo(tree);
    VisitUntouched(VideoPlugin(tree), VideoAction);
  }

  // Reading a fragment back.

  /** `s` cut before the first `stop`: the part before it, and the rest starting with `stop` (empty if there is none). */
  function Field(s: string, stop: char): (r: (string, string))
    ensures r.0 + r.1 == s
    ensures stop !in r.0
    ensures r.1 == [] || r.1[0] == stop
  {
    if s == [] then ([], [])
    else if s[0] == stop then ([], s)
    else
      var (a, b) := Field(s[1..], stop);
      ([s[0]] + a, b)
  }

  lemma {:induction false} FieldOfConcat(a: string, b: string, stop: char)
    requires stop !in a
    requires b != [] && b[0] == stop
    ensures Field(a + b, stop) == (a, b)
  {
    if a == [] {
      assert a + b == b;
    } else {
      var s := a + b;
      assert s[0] == a[0] && s[0] != stop;
      assert s[1..] == a[1..] + b;
      FieldOfConcat(a[1..], b, stop);
      assert Field(s, stop) == ([a[0]] + a[1..], b);
      assert [a[0]] + a[1..] == a;
    }
  }

  /** `s` without the prefix `prefix`, if it has it. */
  function Strip(prefix: string, s: string): (r: Option<string>)
    ensures r.Some? <==> prefix <= s
    ensures r.Some? ==> prefix + r.value == s
  {
    if prefix <= s then Some(s[|prefix|..]) else None
  }

  lemma StripConcat(prefix: string, t: string)
    ensures Strip(prefix, prefix + t) == Some(t)
  {
    assert (prefix + t)[|prefix|..] == t;
  }

  /** The title and source of `title + mid + src + close`, where the title stops at `<` and the source at `"`. */
  function ParseBody(body: string, mid: string, close: string): Option<(string, string)>
  {
    var (title, rest) := Field(body, '<');
    match Strip(mid, rest)
    case None => None
    case Some(more) =>
      var (src, tail) := Field(more, '"');
      if tail == close then Some((title, src)) else None
  }

  lemma ParseBodyOf(title: string, mid: string, src: string, close: string)
    requires '<' !in title && '"' !in src
    requires mid != [] && mid[0] == '<'
    requires close != [] && close[0] == '"'
    ensures ParseBody(title + mid + src + close, mid, close) == Some((title, src))
  {
    assert title + mid + src + close == title + (mid + (src + close));
    FieldOfConcat(title, mid + (src + close), '<');
    StripConcat(mid, src + close);
    FieldOfConcat(src, close, '"');
  }

  /** A local-file body is not read as a YouTube body: the two middles differ at their eighth character. */
  lemma LocalBodyIsNotYouTube(title: string, src: string)
    requires '<' !in title
    ensures ParseBody(title + LOCAL_MID + src + LOCAL_CLOSE, YOUTUBE_MID, YOUTUBE_CLOSE).None?
  {
    var rest := LOCAL_MID + (src + LOCAL_CLOSE);
    assert title + LOCAL_MID + src + LOCAL_CLOSE == title + rest;
    FieldOfConcat(title, rest, '<');
    assert rest[7] == 'v' && YOUTUBE_MID[7] == 'i';
    assert !(YOUTUBE_MID <= rest);
  }

  /** The embed a fragment shows, if it has one of the three shapes `Render` produces. */
  function ParseFragment(html: string): Option<Embed>
  {
    if html == "" then Some(NoEmbed)
    else
      match Strip(OPEN, html)
      case None => None
      case Some(body) =>
        match ParseBody(body, YOUTUBE_MID, YOUTUBE_CLOSE)
        case Some((title, src)) => Some(YouTube(title, src))
        case None =>
          match ParseBody(body, LOCAL_MID, LOCAL_CLOSE)
          case Some((title, src)) => Some(LocalFile(title, src))
          case None => None
  }

  /** An embed whose title has no `<` and whose source has no `"`, so that the raw interpolation cannot be misread. */
  predicate Plain(e: Embed)
  {
    !e.NoEmbed? ==> '<' !in e.title && '"' !in e.src
  }

  /**
   * The fragment carries the title inside the title `div` and the source
   * inside the `iframe` or `source` element: they can be read back exactly.
   */
  lemma RenderRoundTrip(e: Embed)
    requires Plain(e)
    ensures ParseFragment(Render(e)) == Some(e)
  {
    match e
    case NoEmbed =>
    case YouTube(title, src) => YouTubeRoundTrip(title, src);
    case LocalFile(title, src) => LocalRoundTrip(title, src);
  }

  lemma YouTubeRoundTrip(title: string, src: string)
    requires '<' !in title && '"' !in src
    ensures ParseFragment(Render(YouTube(title, src))) == Some(YouTube(title, src))
  {
    var body := title + YOUTUBE_MID + src + YOUTUBE_CLOSE;
    assert Render(YouTube(title, src)) == OPEN + body;
    ParseBodyOf(title, YOUTUBE_MID, src, YOUTUBE_CLOSE);
    YouTubeOpen(body, title, src);
  }

  lemma LocalRoundTrip(title: string, src: string)
    requires '<' !in title && '"' !in src
    ensures ParseFragment(Render(LocalFile(title, src))) == Some(LocalFile(title, src))
  {
    var body := title + LOCAL_MID + src + LOCAL_CLOSE;
    assert Render(LocalFile(title, src)) == OPEN + body;
    LocalBodyIsNotYouTube(title, src);
    ParseBodyOf(title, LOCAL_MID, src, LOCAL_CLOSE);
    LocalOpen(body, title, src);
  }

  /** A fragment made of the wrapper and title `div`s and a YouTube body is read as that YouTube embed. */
  lemma YouTubeOpen(body: string, title: string, src: string)
    requires ParseBody(body, YOUTUBE_MID, YOUTUBE_CLOSE) == Some((title, src))
    ensures ParseFragment(OPEN + body) == Some(YouTube(title, src))
  {
    StripConcat(OPEN, body);
  }

  /** A fragment made of the wrapper and title `div`s and a local-file body is read as that local embed. */
  lemma LocalOpen(body: string, title: string, src: string)
    requires ParseBody(body, YOUTUBE_MID, YOUTUBE_CLOSE).None?
    requires ParseBody(body, LOCAL_MID, LOCAL_CLOSE) == Some((title, src))
    ensures ParseFragment(OPEN + body) == Some(LocalFile(title, src))
  {
    StripConcat(OPEN, body);
  }

  /** Two plain embeds with the same fragment are the same embed. */
  lemma RenderInjective(e1: Embed, e2: Embed)
    requires Plain(e1) && Plain(e2)
    requires Render(e1) == Render(e2)
    ensures e1 == e2
  {
    RenderRoundTrip(e1);
    RenderRoundTrip(e2);
  }

  /**
   * A `youtube` directive without a `title` attribute shows the text
   * `undefined` in its title `div`.
   */
  lemma MissingTitleShowsUndefined(attributes: map<string, string>)
    requires "type" in attributes && attributes["type"] == "youtube"
    requires "title" !in attributes
    requires "src" in attributes && '"' !in attributes["src"]
    ensures ParseFragment(VideoFragment(Some(attributes))) == Some(YouTube("undefined", attributes["src"]))
  {
    RenderRoundTrip(ReadEmbed(Some(attributes)));
  }

  /** The scenario `::video{src="https://x/y" title="Demo" type="youtube"}`: the title `div` holds `Demo`, the `iframe` points at the source. */
  lemma YouTubeExample()
    ensures VideoFragment(Some(map["src" := "https://x/y", "title" := "Demo", "type" := "youtube"])) ==
            OPEN + "Demo" + YOUTUBE_MID + "https://x/y" + YOUTUBE_CLOSE
  {
    var attributes := Some(map["src" := "https://x/y", "title" := "Demo", "type" := "youtube"]);
    assert Lookup(attributes, "type") == Some("youtube");
    assert Lookup(attributes, "title") == Some("Demo");
    assert Lookup(attributes, "src") == Some("https://x/y");
  }

  /** The scenario `::video{src="clip.mp4" title="Demo" type="local"}`: the title `div` holds `Demo`, the `source` element points at the file. */
  lemma LocalExample()
    ensures VideoFragment(Some(map["src" := "clip.mp4", "title" := "Demo", "type" := "local"])) ==
            OPEN + "Demo" + LOCAL_MID + "clip.mp4" + LOCAL_CLOSE
  {
    var attributes := Some(map["src" := "clip.mp4", "title" := "Demo", "type" := "local"]);
    assert Lookup(attributes, "type") == Some("local");
    assert Lookup(attributes, "title") == Some("Demo");
    assert Lookup(attributes, "src") == Some("clip.mp4");
  }
}
