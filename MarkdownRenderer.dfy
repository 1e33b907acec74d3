/** `MarkdownRenderer` of components/chatarea.tsx: the per-element overrides
    handed to the markdown library. The library's parser is not modelled; its
    output, the element tree, is the input here, and each element of it is
    rendered bottom-up by the override registered for its tag (or by the
    library's default when none is registered). */
module MarkdownRenderer {
  import opened Wrappers

  /** Element attributes (props) by name. */
  type Attrs = map<string, string>

  /** The element tree the markdown library produces. */
  datatype MdNode =
    | Element(tag: string, props: Attrs, children: seq<MdNode>)
    | MdText(text: string)

  /** What is rendered: plain text, an HTML element, the syntax highlighter
      showing `source` in `language`, and the Copy button that writes
      `clipboard` to the clipboard. */
  datatype View =
    | Text(text: string)
    | Html(tag: string, attrs: Attrs, children: seq<View>)
    | Highlighter(language: string, source: string, attrs: Attrs)
    | CopyButton(clipboard: string)

  /** The tags the renderer overrides; `Default` is every other tag. */
  datatype ElementKind = Anchor | H1 | H2 | H3 | Paragraph | UnorderedList | ListItem | Code | Default

  function KindOf(tag: string): (k: ElementKind)
    ensures k == Anchor <==> tag == "a"
    ensures k == H3 <==> tag == "h3"
    ensures k == Code <==> tag == "code"
  {
    if tag == "a" then Anchor
    else if tag == "h1" then H1
    else if tag == "h2" then H2
    else if tag == "h3" then H3
    else if tag == "p" then Paragraph
    else if tag == "ul" then UnorderedList
    else if tag == "li" then ListItem
    else if tag == "code" then Code
    else Default
  }

  // ---------------------------------------------------------------------
  // The link override

  /** The attributes of a rendered link: the incoming props, then
      `target` and `rel`, which are written after the spread and so win. */
  function SafeLinkAttrs(props: Attrs): (r: Attrs)
    ensures "target" in r && r["target"] == "_blank"
    ensures "rel" in r && r["rel"] == "noopener noreferrer"
    ensures r.Keys == props.Keys + {"target", "rel"}
    ensures forall k | k in props && k != "target" && k != "rel" :: r[k] == props[k]
  {
    props + map["target" := "_blank", "rel" := "noopener noreferrer"]
  }

  // ---------------------------------------------------------------------
  // The code-span classifier: /language-(\w+)/.exec(className || "")

  const LanguagePrefix: string := "language-"

  /** `\w` without the `u` flag: ASCII letters, digits and underscore. */
  predicate IsWordChar(c: char)
  {
    ('a' <= c <= 'z') || ('A' <= c <= 'Z') || ('0' <= c <= '9') || c == '_'
  }

  /** The pattern matches at position `i`: the prefix, then at least one word character. */
  predicate MatchesAt(s: string, i: nat)
  {
    i + |LanguagePrefix| < |s| && s[i..i + |LanguagePrefix|] == LanguagePrefix && IsWordChar(s[i + |LanguagePrefix|])
  }

  /** `i` is where the regular expression's match starts: the leftmost position that matches. */
  predicate LeftmostMatch(s: string, i: nat)
  {
    MatchesAt(s, i) && forall j: nat | j < i :: !MatchesAt(s, j)
  }

  /** `w` is the whole run of word characters that starts at `p` in `s`
      (what the greedy `\w+` captures there). */
  predicate MaximalWordRunAt(s: string, p: nat, w: string)
  {
    && p + |w| <= |s|
    && s[p..p + |w|] == w
    && (forall k | 0 <= k < |w| :: IsWordChar(w[k]))
    && (p + |w| == |s| || !IsWordChar(s[p + |w|]))
  }

  /** The position of the leftmost match at or after `i`. */
  function FirstMatchFrom(s: string, i: nat): (r: Option<nat>)
    requires i <= |s|
    ensures r.Some? ==> i <= r.value && MatchesAt(s, r.value)
                        && forall j: nat | i <= j < r.value :: !MatchesAt(s, j)
    ensures r.None? ==> forall j: nat | i <= j :: !MatchesAt(s, j)
    decreases |s| - i
  {
    if i + |LanguagePrefix| >= |s| then None
    else if MatchesAt(s, i) then Some(i)
    else FirstMatchFrom(s, i + 1)
  }

  /** The longest prefix of `t` made of word characters. */
  function WordRun(t: string): (w: string)
    ensures w <= t
    ensures forall k | 0 <= k < |w| :: IsWordChar(w[k])
    ensures |w| == |t| || !IsWordChar(t[|w|])
  {
    if t != [] && IsWordChar(t[0]) then [t[0]] + WordRun(t[1..]) else []
  }

  /** `match[1]` of `/language-(\w+)/.exec(className)`, or `None` when the
      expression does not match. */
  function LanguageOf(className: string): (r: Option<string>)
    ensures r.None? <==> forall i: nat :: !MatchesAt(className, i)
    ensures r.Some? ==> exists i: nat :: LeftmostMatch(className, i)
                                         && MaximalWordRunAt(className, i + |LanguagePrefix|, r.value)
    ensures r.Some? ==> |r.value| > 0
  {
    match FirstMatchFrom(className, 0)
    case None => None
    case Some(i) =>
      var p := i + |LanguagePrefix|;
      var w := WordRun(className[p..]);
      assert className[p..][..|w|] == w;
      assert className[p..p + |w|] == className[p..][..|w|];
      assert MaximalWordRunAt(className, p, w);
      assert LeftmostMatch(className, i);
      Some(w)
  }

  lemma WordRunCharAt(s: string, p: nat, w: string, k: nat)
    requires MaximalWordRunAt(s, p, w) && k < |w|
    ensures s[p + k] == w[k] && IsWordChar(s[p + k])
  {
    assert s[p..p + |w|][k] == w[k];
  }

  /** Two maximal word runs at the same position are the same string. */
  lemma {:induction false} MaximalWordRunUnique(s: string, p: nat, w1: string, w2: string)
    requires MaximalWordRunAt(s, p, w1) && MaximalWordRunAt(s, p, w2)
    ensures w1 == w2
  {
    if |w1| < |w2| {
      WordRunCharAt(s, p, w2, |w1|);
      assert false;
    } else if |w2| < |w1| {
      WordRunCharAt(s, p, w1, |w2|);
      assert false;
    }
  }

  /** The classifier's specification determines its result: any string that
      is the maximal word run after the leftmost match is the language. */
  lemma LanguageOfIsTheCapture(className: string, i: nat, w: string)
    requires LeftmostMatch(className, i)
    requires MaximalWordRunAt(className, i + |LanguagePrefix|, w)
    ensures LanguageOf(className) == Some(w)
  {
    var r := LanguageOf(className);
    assert r.Some?;
    var i': nat :| LeftmostMatch(className, i') && MaximalWordRunAt(className, i' + |LanguagePrefix|, r.value);
    assert !(i' < i) && !(i < i');
    MaximalWordRunUnique(className, i + |LanguagePrefix|, w, r.value);
  }

  // ---------------------------------------------------------------------
  // The fenced-block body: String(children).replace(/\n$/, "")

  /** Without the `m` flag `$` matches only at the end of the input, so one
      final newline is removed and nothing else. */
  function TrimFinalNewline(t: string): (r: string)
    ensures t == r + "\n" || (t == r && (t == [] || t[|t| - 1] != '\n'))
  {
    if t != [] && t[|t| - 1] == '\n' then t[..|t| - 1] else t
  }

  /** Trimming undoes appending one newline. */
  lemma TrimUndoesNewline(r: string)
    ensures TrimFinalNewline(r + "\n") == r
  {
    assert (r + "\n")[..|r|] == r;
  }

  lemma TrimRemovesOnlyOneNewline()
    ensures TrimFinalNewline("a\n\n") == "a\n"
    ensures TrimFinalNewline("a") == "a"
  {
    TrimUndoesNewline("a\n");
  }

  /** `String(children)` of a code element: its text children in order. */
  /** `String(children)` of a code element. With no children React leaves
      `children` undefined, and `String(undefined)` is `"undefined"`. */
  function ChildrenString(children: seq<MdNode>): string
  {
    if children == [] then "undefined" else CodeText(children)
  }

  /** The code element's text children in order. */
  function CodeText(children: seq<MdNode>): string
  {
    if children == [] then ""
    else (if children[0].MdText? then children[0].text else "") + CodeText(children[1..])
  }

  // ---------------------------------------------------------------------
  // The code override

  /** `className || ""`. */
  function ClassNameOf(props: Attrs): string
  {
    if "className" in props then props["className"] else ""
  }

  /** The code override: with a language, a highlighted block of the trimmed
      text plus a Copy button for the same trimmed text; otherwise inline
      `code` with the props and children as given. */
  function RenderCode(props: Attrs, raw: seq<MdNode>, children: seq<View>): (v: View)
    ensures v.Html?
    ensures v.tag == "div" <==> exists i: nat :: MatchesAt(ClassNameOf(props), i)
    ensures v.tag == "div" ==>
              && v.attrs == map[]
              && |v.children| == 2
              && v.children[0] == Highlighter(LanguageOf(ClassNameOf(props)).value,
                                              TrimFinalNewline(ChildrenString(raw)),
                                              props - {"className"})
              && v.children[1] == CopyButton(v.children[0].source)
    ensures v.tag != "div" ==> v == Html("code", props, children)
  {
    match LanguageOf(ClassNameOf(props))
    case Some(language) =>
      var body := TrimFinalNewline(ChildrenString(raw));
      Html("div", map[], [Highlighter(language, body, props - {"className"}),
                          CopyButton(TrimFinalNewline(ChildrenString(raw)))])
    case None =>
      Html("code", props, children)
  }

  // ---------------------------------------------------------------------
  // The override table and the tree walk

  /** The `components` table applied to one element whose children are
      already rendered (`raw` is the element's own children, for `code`). */
  function RenderElement(tag: string, props: Attrs, raw: seq<MdNode>, children: seq<View>): (v: View)
    ensures v.Html?
    ensures tag == "a" ==> v == Html("a", SafeLinkAttrs(props), children)
    ensures tag == "h3" ==> v == Html("strong", props, children)
    ensures tag == "code" ==> v == RenderCode(props, raw, children)
    ensures tag != "a" && tag != "h3" && tag != "code" ==> v == Html(tag, props, children)
  {
    match KindOf(tag)
    case Anchor => Html("a", SafeLinkAttrs(props), children)
    case H1 => Html("h1", props, children)
    case H2 => Html("h2", props, children)
    case H3 => Html("strong", props, children)
    case Paragraph => Html("p", props, children)
    case UnorderedList => Html("ul", props, children)
    case ListItem => Html("li", props, children)
    case Code => RenderCode(props, raw, children)
    case Default => Html(tag, props, children)
  }

  /** The markdown component: text stays text, and an element is rendered
      by its override from its tag, props and already-rendered children. */
  function Render(n: MdNode): (v: View)
    ensures v.Text? || v.Html?
    ensures n.MdText? ==> v == Text(n.text)
    ensures n.Element? ==> v == RenderElement(n.tag, n.props, n.children, RenderAll(n.children))
    decreases n
  {
    match n
    case MdText(s) => Text(s)
    case Element(tag, props, children) => RenderElement(tag, props, children, RenderAll(children))
  }

  function RenderAll(ns: seq<MdNode>): (vs: seq<View>)
    ensures |vs| == |ns|
    ensures forall i | 0 <= i < |vs| :: vs[i].Text? || vs[i].Html?
    decreases ns
  {
    if ns == [] then [] else [Render(ns[0])] + RenderAll(ns[1..])
  }

  lemma {:induction false} RenderAllAt(ns: seq<MdNode>, i: nat)
    requires i < |ns|
    ensures RenderAll(ns)[i] == Render(ns[i])
    decreases ns
  {
    if i > 0 {
      RenderAllAt(ns[1..], i - 1);
    }
  }

  // ---------------------------------------------------------------------
  // Properties of a whole rendered tree

  /** Every `a` element opens in a new browsing context without referrer or opener. */
  predicate LinksSafe(v: View)
  {
    match v
    case Html(tag, attrs, children) =>
      && (tag == "a" ==> "target" in attrs && attrs["target"] == "_blank"
                         && "rel" in attrs && attrs["rel"] == "noopener noreferrer")
      && forall i | 0 <= i < |children| :: LinksSafe(children[i])
    case _ => true
  }

  /** No element with tag `tag` occurs. */
  predicate NoTag(v: View, tag: string)
  {
    match v
    case Html(t, _, children) => t != tag && forall i | 0 <= i < |children| :: NoTag(children[i], tag)
    case _ => true
  }

  /** Every Copy button sits right after a highlighted block and copies exactly the text it shows. */
  predicate CopyMatchesShown(v: View)
  {
    match v
    case Html(_, _, children) =>
      forall i | 0 <= i < |children| ::
        && (children[i].CopyButton? ==> 0 < i && children[i - 1].Highlighter?
                                        && children[i - 1].source == children[i].clipboard)
        && CopyMatchesShown(children[i])
    case _ => true
  }

  /** Whatever the markup, every rendered link carries `target="_blank"` and
      `rel="noopener noreferrer"`. */
  lemma {:induction false} RenderedLinksAreSafe(n: MdNode)
    ensures LinksSafe(Render(n))
    decreases n
  {
    match n
    case MdText(_) =>
    case Element(tag, props, children) =>
      RenderedLinksAreSafeAll(children);
  }

  lemma {:induction false} RenderedLinksAreSafeAll(ns: seq<MdNode>)
    ensures forall i | 0 <= i < |ns| :: LinksSafe(RenderAll(ns)[i])
    decreases ns
  {
    forall i | 0 <= i < |ns|
      ensures LinksSafe(RenderAll(ns)[i])
    {
      RenderAllAt(ns, i);
      RenderedLinksAreSafe(ns[i]);
    }
  }

  /** Level-3 headings never render as `h3`: they become `strong`. */
  lemma {:induction false} NoThirdLevelHeading(n: MdNode)
    ensures NoTag(Render(n), "h3")
    decreases n
  {
    match n
    case MdText(_) =>
    case Element(tag, props, children) =>
      NoThirdLevelHeadingAll(children);
  }

  lemma {:induction false} NoThirdLevelHeadingAll(ns: seq<MdNode>)
    ensures forall i | 0 <= i < |ns| :: NoTag(RenderAll(ns)[i], "h3")
    decreases ns
  {
    forall i | 0 <= i < |ns|
      ensures NoTag(RenderAll(ns)[i], "h3")
    {
      RenderAllAt(ns, i);
      NoThirdLevelHeading(ns[i]);
    }
  }

  /** One override keeps the property when its rendered children have it. */
  lemma RenderElementCopyMatchesShown(tag: string, props: Attrs, raw: seq<MdNode>, children: seq<View>)
    requires forall i | 0 <= i < |children| :: !children[i].CopyButton? && CopyMatchesShown(children[i])
    ensures CopyMatchesShown(RenderElement(tag, props, raw, children))
  {
    var v := RenderElement(tag, props, raw, children);
    if KindOf(tag) == Code && v.tag == "div" {
      assert v.children[1].CopyButton? && v.children[0].Highlighter?;
    }
  }

  /** The clipboard receives the text the highlighted block shows. */
  lemma {:induction false} CopiedTextIsShownText(n: MdNode)
    ensures CopyMatchesShown(Render(n))
    decreases n
  {
    match n
    case MdText(_) =>
    case Element(tag, props, children) =>
      CopiedTextIsShownTextAll(children);
      RenderElementCopyMatchesShown(tag, props, children, RenderAll(children));
  }

  lemma {:induction false} CopiedTextIsShownTextAll(ns: seq<MdNode>)
    ensures forall i | 0 <= i < |ns| :: CopyMatchesShown(RenderAll(ns)[i])
    decreases ns
  {
    forall i | 0 <= i < |ns|
      ensures CopyMatchesShown(RenderAll(ns)[i])
    {
      RenderAllAt(ns, i);
      CopiedTextIsShownText(ns[i]);
    }
  }

  /** The class name the library gives a block fenced with `js`. */
  lemma JsClassNameMatches()
    ensures LanguageOf("language-js") == Some("js")
  {
    var cls := "language-js";
    assert LeftmostMatch(cls, 0);
    assert MaximalWordRunAt(cls, |LanguagePrefix|, "js");
    LanguageOfIsTheCapture(cls, 0, "js");
  }

  /** A fenced JavaScript block: one highlighted block, language `js`, the
      fence's final newline gone, and a Copy button for the same text. */
  lemma FencedBlockExample()
    ensures var code := Element("code", map["className" := "language-js"], [MdText("console.log(1)\n")]);
            Render(code) == Html("div", map[], [Highlighter("js", "console.log(1)", map[]),
                                                CopyButton("console.log(1)")])
  {
    var props := map["className" := "language-js"];
    var raw := [MdText("console.log(1)\n")];
    assert ChildrenString(raw) == "console.log(1)\n" by {
      assert raw[1..] == [];
    }
    var body := TrimFinalNewline(ChildrenString(raw));
    assert body == "console.log(1)" by {
      TrimUndoesNewline("console.log(1)");
    }
    var cls := ClassNameOf(props);
    assert LanguageOf(cls) == Some("js") by {
      assert cls == "language-js";
      JsClassNameMatches();
    }
    var rest := props - {"className"};
    assert rest == map[];
    var v := RenderCode(props, raw, RenderAll(raw));
    assert v.tag == "div";
    assert v.children[0] == Highlighter(LanguageOf(cls).value, body, rest);
    assert v.children == [Highlighter("js", "console.log(1)", map[]), CopyButton("console.log(1)")];
    assert KindOf("code") == Code;
  }

  /** A fenced block with no text shows and copies `String(undefined)`. */
  lemma EmptyFencedBlockExample()
    ensures var code := Element("code", map["className" := "language-js"], []);
            Render(code) == Html("div", map[], [Highlighter("js", "undefined", map[]),
                                                CopyButton("undefined")])
  {
    var props := map["className" := "language-js"];
    var raw: seq<MdNode> := [];
    var body := TrimFinalNewline(ChildrenString(raw));
    assert body == "undefined";
    var cls := ClassNameOf(props);
    assert LanguageOf(cls) == Some("js") by {
      assert cls == "language-js";
      JsClassNameMatches();
    }
    var rest := props - {"className"};
    assert rest == map[];
    var v := RenderCode(props, raw, RenderAll(raw));
    assert v.tag == "div";
    assert v.children[0] == Highlighter(LanguageOf(cls).value, body, rest);
    assert v.children == [Highlighter("js", "undefined", map[]), CopyButton("undefined")];
    assert KindOf("code") == Code;
  }

  /** `### Note` renders as bold text, not as a heading. */
  lemma ThirdLevelHeadingExample()
    ensures Render(Element("h3", map[], [MdText("Note")])) == Html("strong", map[], [Text("Note")])
  {
  }
}
