/**
 * The client-side index parser (assets/javascripts/discourse/lib/doc-category-sidebar-structure-parser.js).
 *
 * It walks the direct children of the parsed document's body like the server parser,
 * but its link rule differs: the anchor is the first `a` anywhere below the item, and
 * when the item starts with a text node that text must end in ":" or the item is skipped.
 * Sections carry a sidebar name built from the panel key, and `sectionsConfig` answers
 * an empty list rather than nil.
 *
 * Tag names: the DOM reports `tagName` upper-cased; with the lower-cased names of
 * `Html.Node`, `tagName === "LI"` is `tag == "li"`, and so on.
 */
module SidebarStructureParser {
  import opened Wrappers
  import opened Text
  import opened Html
  import Collections

  /** The key of the docs sidebar panel, `SIDEBAR_DOCS_PANEL`. */
  const SidebarDocsPanel: string := "discourse-docs-sidebar"

  /** The name of the untitled root section. */
  const RootSectionName: string := SidebarDocsPanel + "::root"

  /** A link: the anchor's resolved `href` and its label. */
  datatype JsLink = JsLink(href: string, text: string)

  /** A section: its sidebar name, its heading text (none for the root section) and its links. */
  datatype JsSection = JsSection(name: string, text: Option<string>, links: seq<JsLink>)

  /** The environment the browser provides: `unicodeSlugify`, and the resolution of an anchor's `href` attribute to an absolute URL. */
  datatype Env = Env(slugify: string -> string, resolveHref: Option<string> -> string)

  predicate IsJsHeading(n: Node) {
    n.Element? && |n.tag| == 2 && n.tag[0] == 'h' && '1' <= n.tag[1] <= '6'
  }

  predicate IsJsList(n: Node) {
    n.Element? && (n.tag == "ul" || n.tag == "ol")
  }

  predicate IsJsListItem(n: Node) {
    IsElementNamed(n, "li")
  }

  /** The name of a heading's section: the panel key, "__", and the slug of the heading's text. */
  function SectionName(env: Env, text: string): (r: string)
    ensures |r| > |SidebarDocsPanel| && r[..|SidebarDocsPanel|] == SidebarDocsPanel
    ensures r != RootSectionName
  {
    var r := SidebarDocsPanel + "__" + env.slugify(text);
    assert r[|SidebarDocsPanel|] == '_' && RootSectionName[|SidebarDocsPanel|] == ':';
    r
  }

  /**
   * The label of an item: when its first child is a text node, that text trimmed and
   * without its final ":" if it ends in one, and no label otherwise; when the first child
   * is anything else, the anchor's trimmed text.
   */
  function JsItemLabel(cs: seq<Node>, anchor: Node): Option<string> {
    if cs != [] && cs[0].Text? then
      var fc := JsTrim(cs[0].content);
      if EndsWith(fc, ':') then Some(fc[..|fc| - 1]) else None
    else Some(JsTrim(TextContent(anchor)))
  }

  /** What `#addLink` adds for one item: nothing without an anchor below it, or without a non-empty label. */
  function JsItemLink(env: Env, item: Node): (r: Option<JsLink>)
    ensures r.Some? ==> r.value.text != []
    ensures FirstDescendant(ChildrenOf(item), "a").None? ==> r.None?
  {
    var cs := ChildrenOf(item);
    match FirstDescendant(cs, "a")
    case None => None
    case Some(anchor) =>
      match JsItemLabel(cs, anchor)
      case None => None
      case Some(text) =>
        if text == [] then None else Some(JsLink(env.resolveHref(Attr(anchor, "href")), text))
  }

  /** Appends a link to the current (last) section, creating the root section when there is none. */
  function JsAppendLink(secs: seq<JsSection>, l: JsLink): (r: seq<JsSection>)
    ensures |r| == if secs == [] then 1 else |secs|
  {
    if secs == [] then [JsSection(RootSectionName, None, [l])]
    else secs[..|secs| - 1] + [secs[|secs| - 1].(links := secs[|secs| - 1].links + [l])]
  }

  function JsAddItem(env: Env, secs: seq<JsSection>, item: Node): seq<JsSection> {
    if !IsJsListItem(item) then secs
    else
      match JsItemLink(env, item)
      case None => secs
      case Some(l) => JsAppendLink(secs, l)
  }

  /** `#addList`, as a left fold over the list's children. */
  function JsAddItems(env: Env, secs: seq<JsSection>, items: seq<Node>): seq<JsSection>
    decreases |items|
  {
    if items == [] then secs
    else JsAddItem(env, JsAddItems(env, secs, items[..|items| - 1]), items[|items| - 1])
  }

  /** The section a heading opens; its text is the heading's text, untrimmed. */
  function HeadingSection(env: Env, heading: Node): JsSection {
    var text := TextContent(heading);
    JsSection(SectionName(env, text), Some(text), [])
  }

  function JsStep(env: Env, secs: seq<JsSection>, node: Node): seq<JsSection> {
    if IsJsHeading(node) then secs + [HeadingSection(env, node)]
    else if IsJsList(node) then JsAddItems(env, secs, node.children)
    else secs
  }

  /** `#build`, as a left fold over the body's children. */
  function JsWalk(env: Env, secs: seq<JsSection>, body: seq<Node>): seq<JsSection>
    decreases |body|
  {
    if body == [] then secs else JsStep(env, JsWalk(env, secs, body[..|body| - 1]), body[|body| - 1])
  }

  predicate HasJsLinks(sec: JsSection) {
    sec.links != []
  }

  /** `sectionsConfig`: `filter((section) => section.links.length > 0)`; possibly none. */
  function SectionsConfig(raw: seq<JsSection>): seq<JsSection> {
    Collections.Filter(raw, HasJsLinks)
  }

  /** `parseSidebarStructure(cookedHtml)`, over the parsed body. */
  function ParseSidebarStructure(env: Env, body: seq<Node>): seq<JsSection> {
    SectionsConfig(JsWalk(env, [], body))
  }

  // ---------------------------------------------------------------------------
  // The parser object.

  class DocCategorySidebarStructureParser {
    const env: Env
    /** `#sections`, built step by step. */
    var sections: seq<JsSection>

    /** `constructor(cookedHtml)`: builds at once. */
    constructor (env: Env, body: seq<Node>)
      ensures this.env == env
      ensures sections == JsWalk(env, [], body)
    {
      this.env := env;
      sections := [];
      new;
      Build(body);
    }

    /** The `sectionsConfig` getter. */
    function Config(): (r: seq<JsSection>)
      reads this
      ensures forall i :: 0 <= i < |r| ==> r[i].links != []
    {
      SectionsConfig(sections)
    }

    /** `#build`: each child of the body in turn. */
    method Build(body: seq<Node>)
      modifies this
      ensures sections == JsWalk(env, old(sections), body)
    {
      var i := 0;
      while i < |body|
        invariant 0 <= i <= |body|
        invariant sections == JsWalk(env, old(sections), body[..i])
      {
        var element := body[i];
        if IsJsHeading(element) {
          AddSection(element);
        } else if IsJsList(element) {
          AddList(element);
        }
        assert body[..i + 1][..i] == body[..i];
        i := i + 1;
      }
      assert body[..|body|] == body;
    }

    /** `#addSection`. */
    method AddSection(element: Node)
      modifies this
      ensures sections == old(sections) + [HeadingSection(env, element)]
    {
      var text := TextContent(element);
      sections := sections + [JsSection(SectionName(env, text), Some(text), [])];
    }

    /** `#addRootSection`. */
    method AddRootSection()
      modifies this
      ensures sections == old(sections) + [JsSection(RootSectionName, None, [])]
    {
      sections := sections + [JsSection(RootSectionName, None, [])];
    }

    /** `#addList`: the list-item children, in order. */
    method AddList(element: Node)
      requires IsJsList(element)
      modifies this
      ensures sections == JsAddItems(env, old(sections), element.children)
    {
      var items := element.children;
      var i := 0;
      while i < |items|
        invariant 0 <= i <= |items|
        invariant sections == JsAddItems(env, old(sections), items[..i])
      {
        if IsJsListItem(items[i]) {
          AddLink(items[i]);
        }
        assert items[..i + 1][..i] == items[..i];
        i := i + 1;
      }
      assert items[..|items|] == items;
    }

    /** `#addLink`. */
    method AddLink(element: Node)
      requires IsJsListItem(element)
      modifies this
      ensures sections == JsAddItem(env, old(sections), element)
    {
      var cs := ChildrenOf(element);
      var anchor := FirstDescendant(cs, "a");
      if anchor.None? {
        return;
      }
      var text := LinkText(cs, anchor.value);
      if text.None? || text.value == [] {
        return;
      }
      var link := JsLink(env.resolveHref(Attr(anchor.value, "href")), text.value);
      AppendToCurrentSection(link);
    }

    /** The label computation of `#addLink`; `None` stands for `undefined`. */
    static method LinkText(cs: seq<Node>, anchor: Node) returns (text: Option<string>)
      ensures text == JsItemLabel(cs, anchor)
    {
      text := None;
      if cs != [] && cs[0].Text? {
        var fcText := JsTrim(cs[0].content);
        if EndsWith(fcText, ':') {
          text := Some(fcText[..|fcText| - 1]);
        }
      } else {
        text := Some(JsTrim(TextContent(anchor)));
      }
    }

    /** The tail of `#addLink`: the root section is added when there is no current section. */
    method AppendToCurrentSection(link: JsLink)
      modifies this
      ensures sections == JsAppendLink(old(sections), link)
    {
      if sections == [] {
        AddRootSection();
      }
      var current := sections[|sections| - 1];
      sections := sections[..|sections| - 1] + [current.(links := current.links + [link])];
      assert old(sections) == [] ==> current.links + [link] == [link];
    }
  }

  // ---------------------------------------------------------------------------
  // What the walk produces.

  function AllJsLinks(secs: seq<JsSection>): seq<JsLink> {
    if secs == [] then [] else AllJsLinks(secs[..|secs| - 1]) + secs[|secs| - 1].links
  }

  /** The links the items of one list yield, in order. */
  function JsItemsLinks(env: Env, items: seq<Node>): seq<JsLink>
    decreases |items|
  {
    if items == [] then []
    else
      var last := items[|items| - 1];
      JsItemsLinks(env, items[..|items| - 1])
      + (if IsJsListItem(last) && JsItemLink(env, last).Some? then [JsItemLink(env, last).value] else [])
  }

  /** The links all top-level lists of a body yield, in document order. */
  function JsBodyLinks(env: Env, body: seq<Node>): seq<JsLink>
    decreases |body|
  {
    if body == [] then []
    else
      var last := body[|body| - 1];
      JsBodyLinks(env, body[..|body| - 1]) + (if IsJsList(last) then JsItemsLinks(env, last.children) else [])
  }

  /** Each section's name matches its text: the root name for the untitled one, the slug name otherwise; and only the first may be untitled. */
  ghost predicate NamedSections(env: Env, secs: seq<JsSection>) {
    && (forall i :: 0 <= i < |secs| && secs[i].text.None? ==> i == 0 && secs[i].name == RootSectionName)
    && (forall i :: 0 <= i < |secs| && secs[i].text.Some? ==> secs[i].name == SectionName(env, secs[i].text.value))
  }

  lemma AllJsLinksSnoc(secs: seq<JsSection>, s: JsSection)
    ensures AllJsLinks(secs + [s]) == AllJsLinks(secs) + s.links
  {
    assert (secs + [s])[..|secs|] == secs;
  }

  lemma JsAppendLinkEffect(env: Env, secs: seq<JsSection>, l: JsLink)
    ensures AllJsLinks(JsAppendLink(secs, l)) == AllJsLinks(secs) + [l]
    ensures NamedSections(env, secs) ==> NamedSections(env, JsAppendLink(secs, l))
  {
    if secs != [] {
      var front, last := secs[..|secs| - 1], secs[|secs| - 1];
      assert secs == front + [last];
      AllJsLinksSnoc(front, last);
      AllJsLinksSnoc(front, last.(links := last.links + [l]));
    } else {
      AllJsLinksSnoc([], JsSection(RootSectionName, None, [l]));
    }
  }

  lemma {:induction false} JsAddItemsEffect(env: Env, secs: seq<JsSection>, items: seq<Node>)
    ensures AllJsLinks(JsAddItems(env, secs, items)) == AllJsLinks(secs) + JsItemsLinks(env, items)
    ensures NamedSections(env, secs) ==> NamedSections(env, JsAddItems(env, secs, items))
    decreases |items|
  {
    if items != [] {
      var front, last := items[..|items| - 1], items[|items| - 1];
      JsAddItemsEffect(env, secs, front);
      if IsJsListItem(last) && JsItemLink(env, last).Some? {
        JsAppendLinkEffect(env, JsAddItems(env, secs, front), JsItemLink(env, last).value);
      }
    }
  }

  lemma JsStepOfList(env: Env, secs: seq<JsSection>, node: Node)
    requires IsJsList(node)
    ensures JsStep(env, secs, node) == JsAddItems(env, secs, node.children)
  {
    assert !IsJsHeading(node);
  }

  lemma JsStepEffect(env: Env, secs: seq<JsSection>, node: Node)
    ensures AllJsLinks(JsStep(env, secs, node)) == AllJsLinks(secs) + (if IsJsList(node) then JsItemsLinks(env, node.children) else [])
    ensures NamedSections(env, secs) ==> NamedSections(env, JsStep(env, secs, node))
  {
    if IsJsHeading(node) {
      AllJsLinksSnoc(secs, HeadingSection(env, node));
    } else if IsJsList(node) {
      JsStepOfList(env, secs, node);
      JsAddItemsEffect(env, secs, node.children);
    }
  }

  /** The walk adds exactly the links of the body's lists, in document order, and keeps every name matched to its text. */
  lemma {:induction false} JsWalkEffect(env: Env, secs: seq<JsSection>, body: seq<Node>)
    ensures AllJsLinks(JsWalk(env, secs, body)) == AllJsLinks(secs) + JsBodyLinks(env, body)
    ensures NamedSections(env, secs) ==> NamedSections(env, JsWalk(env, secs, body))
    decreases |body|
  {
    if body != [] {
      var front := body[..|body| - 1];
      JsWalkEffect(env, secs, front);
      JsStepEffect(env, JsWalk(env, secs, front), body[|body| - 1]);
    }
  }

  lemma {:induction false} SectionsConfigLinks(raw: seq<JsSection>)
    ensures AllJsLinks(SectionsConfig(raw)) == AllJsLinks(raw)
  {
    if raw != [] {
      var front, last := raw[..|raw| - 1], raw[|raw| - 1];
      SectionsConfigLinks(front);
      if last.links != [] {
        AllJsLinksSnoc(SectionsConfig(front), last);
      }
    }
  }

  lemma {:induction false} SectionsConfigNames(env: Env, raw: seq<JsSection>)
    requires NamedSections(env, raw)
    ensures NamedSections(env, SectionsConfig(raw))
  {
    if raw != [] {
      var front, last := raw[..|raw| - 1], raw[|raw| - 1];
      assert NamedSections(env, front);
      SectionsConfigNames(env, front);
      if last.links != [] {
        var kept := SectionsConfig(front);
        assert last.text.None? ==> |raw| == 1 && kept == [];
        assert forall i :: 0 <= i < |kept| ==> (kept + [last])[i] == kept[i];
      }
    }
  }

  lemma {:induction false} NoJsLinksIffEmpty(secs: seq<JsSection>)
    ensures AllJsLinks(secs) == [] <==> forall i :: 0 <= i < |secs| ==> secs[i].links == []
  {
    if secs != [] {
      NoJsLinksIffEmpty(secs[..|secs| - 1]);
      assert forall i :: 0 <= i < |secs| - 1 ==> secs[..|secs| - 1][i] == secs[i];
    }
  }

  /**
   * The client parser's result: empty exactly when no top-level list yields a link;
   * otherwise every extracted link once, in document order, no empty section, only the
   * first section untitled and named as the root, every other named from its heading.
   */
  lemma ParseSidebarStructureSpec(env: Env, body: seq<Node>)
    ensures ParseSidebarStructure(env, body) == [] <==> JsBodyLinks(env, body) == []
    ensures AllJsLinks(ParseSidebarStructure(env, body)) == JsBodyLinks(env, body)
    ensures NamedSections(env, ParseSidebarStructure(env, body))
  {
    var w := JsWalk(env, [], body);
    JsWalkEffect(env, [], body);
    assert AllJsLinks([]) == [];
    NoJsLinksIffEmpty(w);
    SectionsConfigLinks(w);
    SectionsConfigNames(env, w);
  }
}
