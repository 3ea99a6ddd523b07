/**
 * The server-side index-post parser (lib/doc_categories/doc_index_topic_parser.rb).
 *
 * It walks the top-level elements of the index topic's cooked first post: a heading
 * (h1–h6) opens a section titled with the heading's stripped text, a list (ol/ul)
 * contributes one link per direct `li` child that has a usable anchor, and anything else
 * is ignored. A link goes to the last section; an untitled root section is created
 * first when no section exists yet. `sections` keeps the sections that got at least
 * one link and answers nil rather than an empty list.
 *
 * The parser object builds `@sections` step by step; here that is the class `Parser`,
 * whose methods are proved equal to the pure fold `Walk`, about which the lemmas speak.
 */
module DocIndexTopicParser {
  import opened Wrappers
  import opened Text
  import opened Html
  import Collections

  /** A parsed link: the label and the anchor's raw `href` attribute (nil when the anchor has none). */
  datatype Link = Link(text: string, href: Option<string>)

  /** A parsed section: the heading's text, or nil for the untitled root section. */
  datatype Section = Section(text: Option<string>, links: seq<Link>)

  /** h1 to h6. */
  predicate IsHeading(n: Node) {
    n.Element? && |n.tag| == 2 && n.tag[0] == 'h' && '1' <= n.tag[1] <= '6'
  }

  predicate IsList(n: Node) {
    n.Element? && (n.tag == "ol" || n.tag == "ul")
  }

  predicate IsListItem(n: Node) {
    IsElementNamed(n, "li")
  }

  predicate IsAnchor(n: Node) {
    IsElementNamed(n, "a")
  }

  /** Position of the last direct child that is an `a` element (`nodes.reverse.find`), nil when there is none. */
  function LastAnchorIndex(ns: seq<Node>): (r: Option<nat>)
    ensures r.Some? ==> r.value < |ns| && IsAnchor(ns[r.value])
    ensures r.Some? ==> forall j :: r.value < j < |ns| ==> !IsAnchor(ns[j])
    ensures r.None? ==> forall j :: 0 <= j < |ns| ==> !IsAnchor(ns[j])
  {
    if ns == [] then None
    else if IsAnchor(ns[|ns| - 1]) then Some(|ns| - 1)
    else LastAnchorIndex(ns[..|ns| - 1])
  }

  /**
   * The label of an item whose chosen anchor is child `k`: the stripped text of the
   * children before the anchor with its final ":" dropped when it ends in one, otherwise
   * the anchor's stripped text.
   */
  function ItemLabel(cs: seq<Node>, k: nat): string
    requires k < |cs|
  {
    var prefix := Strip(TextOfNodes(cs[..k]));
    if !IsBlank(prefix) && EndsWith(prefix, ':') then prefix[..|prefix| - 1]
    else Strip(TextContent(cs[k]))
  }

  /** What `add_link` adds for one item: nothing without a direct-child anchor or with a blank label. */
  function ItemLink(item: Node): (r: Option<Link>)
    ensures r.Some? ==> !IsBlank(r.value.text)
    ensures LastAnchorIndex(ChildrenOf(item)).None? ==> r.None?
  {
    var cs := ChildrenOf(item);
    match LastAnchorIndex(cs)
    case None => None
    case Some(k) =>
      var title := ItemLabel(cs, k);
      if IsBlank(title) then None else Some(Link(title, Attr(cs[k], "href")))
  }

  /** Appends a link to the last section, creating the untitled root section when there is none. */
  function AppendLink(secs: seq<Section>, l: Link): (r: seq<Section>)
    ensures |r| == if secs == [] then 1 else |secs|
  {
    if secs == [] then [Section(None, [l])]
    else secs[..|secs| - 1] + [secs[|secs| - 1].(links := secs[|secs| - 1].links + [l])]
  }

  /** `add_link(child) if list_item?(child)`. */
  function AddItem(secs: seq<Section>, item: Node): seq<Section> {
    if !IsListItem(item) then secs
    else
      match ItemLink(item)
      case None => secs
      case Some(l) => AppendLink(secs, l)
  }

  /** `add_list`: every child of the list, in order. */
  function AddItems(secs: seq<Section>, items: seq<Node>): seq<Section>
    decreases |items|
  {
    if items == [] then secs
    else AddItem(AddItems(secs, items[..|items| - 1]), items[|items| - 1])
  }

  /** One top-level element of `parse`. */
  function Step(secs: seq<Section>, node: Node): seq<Section> {
    if IsHeading(node) then secs + [Section(Some(Strip(TextContent(node))), [])]
    else if IsList(node) then AddItems(secs, node.children)
    else secs
  }

  /** `parse` over the top-level elements, as a left fold. */
  function Walk(secs: seq<Section>, body: seq<Node>): seq<Section>
    decreases |body|
  {
    if body == [] then secs else Step(Walk(secs, body[..|body| - 1]), body[|body| - 1])
  }

  predicate HasLinks(sec: Section) {
    sec.links != []
  }

  /** `@sections.select { |section| section[:links].present? }`. */
  function KeepLinked(raw: seq<Section>): seq<Section> {
    Collections.Filter(raw, HasLinks)
  }

  /** `sections`: the linked sections, or nil when there are none. */
  function Sections(raw: seq<Section>): (r: Option<seq<Section>>)
    ensures r.None? <==> forall i :: 0 <= i < |raw| ==> raw[i].links == []
    ensures r.Some? ==> r.value != [] && forall i :: 0 <= i < |r.value| ==> r.value[i].links != []
  {
    var kept := KeepLinked(raw);
    if kept == [] then None else Some(kept)
  }

  /** `DocIndexTopicParser.new(cooked).sections`, over the parsed body. */
  function ParseIndex(body: seq<Node>): Option<seq<Section>> {
    Sections(Walk([], body))
  }

  /**
   * `DocIndexTopicParser.new(post.cooked).sections`, with the host's HTML parser turning
   * the cooked text into the body; a post without cooked text reads as an empty body.
   */
  function ParseCooked(parseHtml: string -> seq<Node>, cooked: Option<string>): Option<seq<Section>> {
    ParseIndex(parseHtml(cooked.GetOr("")))
  }

  // ---------------------------------------------------------------------------
  // The parser object.

  class Parser {
    /** `@sections`, built step by step. */
    var sections: seq<Section>

    /** `initialize(cooked_text)`: parses at once. */
    constructor (body: seq<Node>)
      ensures sections == Walk([], body)
    {
      sections := [];
      new;
      Parse(body);
    }

    /** `sections`: the linked sections, nil when there are none. */
    function ParsedSections(): Option<seq<Section>>
      reads this
    {
      Sections(sections)
    }

    /** `parse`: each top-level element in turn. */
    method Parse(body: seq<Node>)
      modifies this
      ensures sections == Walk(old(sections), body)
    {
      var i := 0;
      while i < |body|
        invariant 0 <= i <= |body|
        invariant sections == Walk(old(sections), body[..i])
      {
        var node := body[i];
        if IsHeading(node) {
          AddSection(Some(Strip(TextContent(node))));
        } else if IsList(node) {
          AddList(node);
        }
        assert body[..i + 1][..i] == body[..i];
        i := i + 1;
      }
      assert body[..|body|] == body;
    }

    /** `add_section`: a heading's section, or the root section when `text` is nil. */
    method AddSection(text: Option<string>)
      modifies this
      ensures sections == old(sections) + [Section(text, [])]
    {
      sections := sections + [Section(text, [])];
    }

    /** `add_list`: the list-item children, in order. */
    method AddList(node: Node)
      requires IsList(node)
      modifies this
      ensures sections == AddItems(old(sections), node.children)
    {
      var items := node.children;
      var i := 0;
      while i < |items|
        invariant 0 <= i <= |items|
        invariant sections == AddItems(old(sections), items[..i])
      {
        if IsListItem(items[i]) {
          AddLink(items[i]);
        }
        assert items[..i + 1][..i] == items[..i];
        i := i + 1;
      }
      assert items[..|items|] == items;
    }

    /** `add_link`: resolves the label and appends the link to the last section. */
    method AddLink(item: Node)
      requires IsListItem(item)
      modifies this
      ensures sections == AddItem(old(sections), item)
    {
      var nodes := ChildrenOf(item);
      var found := LastAnchorIndex(nodes);
      if found.None? {
        return;
      }
      var k := found.value;
      var title := LinkTitle(nodes, k);
      if IsBlank(title) {
        return;
      }
      AppendToLastSection(Link(title, Attr(nodes[k], "href")));
    }

    /** The label computation of `add_link`: the text before the anchor when it ends in ":", else the anchor's text. */
    static method LinkTitle(nodes: seq<Node>, k: nat) returns (title: string)
      requires k < |nodes|
      ensures title == ItemLabel(nodes, k)
    {
      title := Strip(TextOfNodes(nodes[..k]));
      if !IsBlank(title) && EndsWith(title, ':') {
        title := title[..|title| - 1];
      } else {
        title := Strip(TextContent(nodes[k]));
      }
    }

    /** The tail of `add_link`: the root section is created when there is no section yet. */
    method AppendToLastSection(link: Link)
      modifies this
      ensures sections == AppendLink(old(sections), link)
    {
      if sections == [] {
        AddSection(None);
      }
      var last := sections[|sections| - 1];
      sections := sections[..|sections| - 1] + [last.(links := last.links + [link])];
      assert old(sections) == [] ==> last.links + [link] == [link];
    }
  }

  // ---------------------------------------------------------------------------
  // What the walk produces.

  /** All links of all sections, in order. */
  function AllLinks(secs: seq<Section>): seq<Link> {
    if secs == [] then [] else AllLinks(secs[..|secs| - 1]) + secs[|secs| - 1].links
  }

  /** The links the items of one list yield, in order. */
  function ItemsLinks(items: seq<Node>): seq<Link>
    decreases |items|
  {
    if items == [] then []
    else
      var last := items[|items| - 1];
      ItemsLinks(items[..|items| - 1])
      + (if IsListItem(last) && ItemLink(last).Some? then [ItemLink(last).value] else [])
  }

  /** The links all top-level lists of a body yield, in document order. */
  function BodyLinks(body: seq<Node>): seq<Link>
    decreases |body|
  {
    if body == [] then []
    else
      var last := body[|body| - 1];
      BodyLinks(body[..|body| - 1]) + (if IsList(last) then ItemsLinks(last.children) else [])
  }

  /** The titles of the titled sections, in order. */
  function Titles(secs: seq<Section>): seq<string> {
    if secs == [] then []
    else
      var last := secs[|secs| - 1];
      Titles(secs[..|secs| - 1]) + (if last.text.Some? then [last.text.value] else [])
  }

  /** The stripped texts of the top-level headings, in document order. */
  function HeadingTitles(body: seq<Node>): seq<string>
    decreases |body|
  {
    if body == [] then []
    else
      var last := body[|body| - 1];
      HeadingTitles(body[..|body| - 1]) + (if IsHeading(last) then [Strip(TextContent(last))] else [])
  }

  /** Only the first section may be untitled. */
  ghost predicate RootOnlyFirst(secs: seq<Section>) {
    forall i :: 0 < i < |secs| ==> secs[i].text.Some?
  }

  lemma AllLinksSnoc(secs: seq<Section>, s: Section)
    ensures AllLinks(secs + [s]) == AllLinks(secs) + s.links
  {
    assert (secs + [s])[..|secs|] == secs;
  }

  lemma TitlesSnoc(secs: seq<Section>, s: Section)
    ensures Titles(secs + [s]) == Titles(secs) + (if s.text.Some? then [s.text.value] else [])
  {
    assert (secs + [s])[..|secs|] == secs;
  }

  /** Appending a link adds exactly that link at the end and leaves every title in place. */
  lemma AppendLinkEffect(secs: seq<Section>, l: Link)
    ensures AllLinks(AppendLink(secs, l)) == AllLinks(secs) + [l]
    ensures Titles(AppendLink(secs, l)) == Titles(secs)
    ensures RootOnlyFirst(secs) ==> RootOnlyFirst(AppendLink(secs, l))
  {
    if secs == [] {
      AllLinksSnoc([], Section(None, [l]));
      TitlesSnoc([], Section(None, [l]));
    } else {
      var front, last := secs[..|secs| - 1], secs[|secs| - 1];
      assert secs == front + [last];
      AllLinksSnoc(front, last);
      AllLinksSnoc(front, last.(links := last.links + [l]));
      TitlesSnoc(front, last);
      TitlesSnoc(front, last.(links := last.links + [l]));
    }
  }

  /** A list adds exactly the links of its items, in order, and no title. */
  lemma {:induction false} AddItemsEffect(secs: seq<Section>, items: seq<Node>)
    ensures AllLinks(AddItems(secs, items)) == AllLinks(secs) + ItemsLinks(items)
    ensures Titles(AddItems(secs, items)) == Titles(secs)
    ensures RootOnlyFirst(secs) ==> RootOnlyFirst(AddItems(secs, items))
    decreases |items|
  {
    if items != [] {
      var front, last := items[..|items| - 1], items[|items| - 1];
      AddItemsEffect(secs, front);
      if IsListItem(last) && ItemLink(last).Some? {
        AppendLinkEffect(AddItems(secs, front), ItemLink(last).value);
      }
    }
  }

  lemma StepOfList(secs: seq<Section>, node: Node)
    requires IsList(node)
    ensures Step(secs, node) == AddItems(secs, node.children)
  {
    assert !IsHeading(node);
  }

  /** One top-level element adds the links of a list and nothing else. */
  lemma StepLinks(secs: seq<Section>, node: Node)
    ensures AllLinks(Step(secs, node)) == AllLinks(secs) + (if IsList(node) then ItemsLinks(node.children) else [])
  {
    if IsHeading(node) {
      AllLinksSnoc(secs, Section(Some(Strip(TextContent(node))), []));
    } else if IsList(node) {
      StepOfList(secs, node);
      AddItemsEffect(secs, node.children);
    }
  }

  /** One top-level element adds the title of a heading and no other. */
  lemma StepTitles(secs: seq<Section>, node: Node)
    ensures Titles(Step(secs, node)) == Titles(secs) + (if IsHeading(node) then [Strip(TextContent(node))] else [])
  {
    if IsHeading(node) {
      TitlesSnoc(secs, Section(Some(Strip(TextContent(node))), []));
    } else if IsList(node) {
      AddItemsEffect(secs, node.children);
    }
  }

  /** A step never adds an untitled section after the first. */
  lemma StepRoot(secs: seq<Section>, node: Node)
    requires RootOnlyFirst(secs)
    ensures RootOnlyFirst(Step(secs, node))
  {
    if IsList(node) {
      AddItemsEffect(secs, node.children);
    }
  }

  /** The walk adds exactly the links of the body's lists, in document order. */
  lemma {:induction false} WalkLinks(secs: seq<Section>, body: seq<Node>)
    ensures AllLinks(Walk(secs, body)) == AllLinks(secs) + BodyLinks(body)
    decreases |body|
  {
    if body != [] {
      var front := body[..|body| - 1];
      WalkLinks(secs, front);
      StepLinks(Walk(secs, front), body[|body| - 1]);
    }
  }

  /** The walk adds one title per heading, in document order. */
  lemma {:induction false} WalkTitles(secs: seq<Section>, body: seq<Node>)
    ensures Titles(Walk(secs, body)) == Titles(secs) + HeadingTitles(body)
    decreases |body|
  {
    if body != [] {
      var front := body[..|body| - 1];
      WalkTitles(secs, front);
      StepTitles(Walk(secs, front), body[|body| - 1]);
    }
  }

  /** The walk only ever creates the untitled root section in front. */
  lemma {:induction false} WalkRoot(secs: seq<Section>, body: seq<Node>)
    requires RootOnlyFirst(secs)
    ensures RootOnlyFirst(Walk(secs, body))
    decreases |body|
  {
    if body != [] {
      var front := body[..|body| - 1];
      WalkRoot(secs, front);
      StepRoot(Walk(secs, front), body[|body| - 1]);
    }
  }

  /** Dropping the empty sections loses no link and keeps the root section in front. */
  lemma {:induction false} KeepLinkedEffect(raw: seq<Section>)
    ensures AllLinks(KeepLinked(raw)) == AllLinks(raw)
    ensures RootOnlyFirst(raw) ==> RootOnlyFirst(KeepLinked(raw))
  {
    if raw != [] {
      var front, last := raw[..|raw| - 1], raw[|raw| - 1];
      KeepLinkedEffect(front);
      if last.links != [] {
        AllLinksSnoc(KeepLinked(front), last);
        if RootOnlyFirst(raw) && |raw| > 1 {
          assert RootOnlyFirst(front);
          assert last.text.Some?;
        }
      }
    }
  }

  /** A walk's sections are all empty exactly when its links are. */
  lemma {:induction false} NoLinksIffEmpty(secs: seq<Section>)
    ensures AllLinks(secs) == [] <==> forall i :: 0 <= i < |secs| ==> secs[i].links == []
  {
    if secs != [] {
      NoLinksIffEmpty(secs[..|secs| - 1]);
      assert forall i :: 0 <= i < |secs| - 1 ==> secs[..|secs| - 1][i] == secs[i];
    }
  }

  /**
   * The parser's result: nil exactly when no top-level list yields a link; otherwise
   * every extracted link exactly once in document order, every section non-empty, and
   * at most the first section untitled.
   */
  lemma ParseIndexSpec(body: seq<Node>)
    ensures ParseIndex(body).None? <==> BodyLinks(body) == []
    ensures ParseIndex(body).Some? ==> AllLinks(ParseIndex(body).value) == BodyLinks(body)
    ensures ParseIndex(body).Some? ==> RootOnlyFirst(ParseIndex(body).value)
  {
    var w := Walk([], body);
    WalkLinks([], body);
    WalkRoot([], body);
    assert AllLinks([]) == [];
    NoLinksIffEmpty(w);
    KeepLinkedEffect(w);
  }

  // ---------------------------------------------------------------------------
  // Rendering an index back to a post: the parser reads back what was written.

  /** A list item "label: <a>label</a>": the label as the text before the anchor, ended by a colon. */
  function RenderLink(l: Link): Node {
    var attrs := if l.href.Some? then map["href" := l.href.value] else map[];
    Element("li", map[], [Text(l.text + ":"), Element("a", attrs, [Text(l.text)])])
  }

  function RenderLinks(ls: seq<Link>): seq<Node> {
    seq(|ls|, i requires 0 <= i < |ls| => RenderLink(ls[i]))
  }

  /** A heading for a titled section, then one list of its links. */
  function RenderSection(sec: Section): seq<Node> {
    (if sec.text.Some? then [Element("h2", map[], [Text(sec.text.value)])] else [])
    + [Element("ul", map[], RenderLinks(sec.links))]
  }

  function Render(secs: seq<Section>): seq<Node> {
    if secs == [] then [] else Render(secs[..|secs| - 1]) + RenderSection(secs[|secs| - 1])
  }

  /** The labels the parser gives: not blank and not starting with a stripped character (the end is free, as in "Test : "). */
  predicate CanonicalLabel(t: string) {
    t != [] && !IsStripSpace(t[0]) && !IsBlank(t)
  }

  /** Titles stripped and labels as the parser gives them. */
  ghost predicate CleanSections(secs: seq<Section>) {
    && (forall i :: 0 <= i < |secs| && secs[i].text.Some? ==> Strip(secs[i].text.value) == secs[i].text.value)
    && (forall i, j :: 0 <= i < |secs| && 0 <= j < |secs[i].links| ==> CanonicalLabel(secs[i].links[j].text))
  }

  /** The shape of every index the parser produces (`ParsedIsCanonical`): clean, no empty section, only the first untitled. */
  ghost predicate CanonicalIndex(secs: seq<Section>) {
    && RootOnlyFirst(secs)
    && (forall i :: 0 <= i < |secs| ==> secs[i].links != [])
    && CleanSections(secs)
  }

  /** Every label the parser reads from an item is canonical. */
  lemma ItemLinkCanonical(item: Node)
    requires ItemLink(item).Some?
    ensures CanonicalLabel(ItemLink(item).value.text)
  {
    var cs := ChildrenOf(item);
    var k := LastAnchorIndex(cs).value;
    var prefix := Strip(TextOfNodes(cs[..k]));
    StripEnds(TextOfNodes(cs[..k]));
    StripEnds(TextContent(cs[k]));
    if !IsBlank(prefix) && EndsWith(prefix, ':') {
      assert ItemLabel(cs, k) == prefix[..|prefix| - 1];
    }
  }

  lemma AddItemClean(secs: seq<Section>, item: Node)
    requires CleanSections(secs)
    ensures CleanSections(AddItem(secs, item))
  {
    if IsListItem(item) && ItemLink(item).Some? {
      ItemLinkCanonical(item);
      var l := ItemLink(item).value;
      if secs != [] {
        var r := AppendLink(secs, l);
        assert forall i :: 0 <= i < |secs| - 1 ==> r[i] == secs[i];
        assert r[|secs| - 1].links == secs[|secs| - 1].links + [l];
      }
    }
  }

  lemma {:induction false} AddItemsClean(secs: seq<Section>, items: seq<Node>)
    requires CleanSections(secs)
    ensures CleanSections(AddItems(secs, items))
    decreases |items|
  {
    if items != [] {
      AddItemsClean(secs, items[..|items| - 1]);
      AddItemClean(AddItems(secs, items[..|items| - 1]), items[|items| - 1]);
    }
  }

  /** Walking keeps titles stripped and labels canonical. */
  lemma {:induction false} WalkClean(secs: seq<Section>, body: seq<Node>)
    requires CleanSections(secs)
    ensures CleanSections(Walk(secs, body))
    decreases |body|
  {
    if body != [] {
      var w := Walk(secs, body[..|body| - 1]);
      var node := body[|body| - 1];
      WalkClean(secs, body[..|body| - 1]);
      if IsHeading(node) {
        StripIdempotent(TextContent(node));
      } else if IsList(node) {
        AddItemsClean(w, node.children);
      }
    }
  }

  /** Everything the parser produces has the canonical shape. */
  lemma ParsedIsCanonical(body: seq<Node>)
    requires ParseIndex(body).Some?
    ensures CanonicalIndex(ParseIndex(body).value)
  {
    var w := Walk([], body);
    WalkClean([], body);
    ParseIndexSpec(body);
    var secs := ParseIndex(body).value;
    forall i | 0 <= i < |secs|
      ensures (secs[i].text.Some? ==> Strip(secs[i].text.value) == secs[i].text.value)
      ensures forall j :: 0 <= j < |secs[i].links| ==> CanonicalLabel(secs[i].links[j].text)
    {
      assert secs[i] in w;
    }
  }

  lemma {:induction false} WalkAppend(secs: seq<Section>, a: seq<Node>, b: seq<Node>)
    ensures Walk(secs, a + b) == Walk(Walk(secs, a), b)
    decreases |b|
  {
    if b == [] {
      assert a + b == a;
    } else {
      assert (a + b)[..|a + b| - 1] == a + b[..|b| - 1];
      WalkAppend(secs, a, b[..|b| - 1]);
    }
  }

  lemma {:induction false} AddItemsAppend(secs: seq<Section>, a: seq<Node>, b: seq<Node>)
    ensures AddItems(secs, a + b) == AddItems(AddItems(secs, a), b)
    decreases |b|
  {
    if b == [] {
      assert a + b == a;
    } else {
      assert (a + b)[..|a + b| - 1] == a + b[..|b| - 1];
      AddItemsAppend(secs, a, b[..|b| - 1]);
    }
  }

  /** A rendered item is parsed back to its link. */
  lemma ItemLinkOfRendered(l: Link)
    requires CanonicalLabel(l.text)
    ensures ItemLink(RenderLink(l)) == Some(l)
  {
    var cs := ChildrenOf(RenderLink(l));
    var prefix := l.text + ":";
    assert LastAnchorIndex(cs) == Some(1);
    assert cs[..1] == [Text(prefix)];
    TextOfSingle(Text(prefix));
    StripWithColon(l.text);
    assert !IsBlank(prefix) by {
      assert !IsUnicodeSpace(prefix[|prefix| - 1]);
    }
    assert prefix[..|prefix| - 1] == l.text;
    assert ItemLabel(cs, 1) == l.text;
  }

  lemma RenderLinksSnoc(ls: seq<Link>)
    requires ls != []
    ensures RenderLinks(ls) == RenderLinks(ls[..|ls| - 1]) + [RenderLink(ls[|ls| - 1])]
  {
  }

  /** A rendered item adds its link to the last section. */
  lemma AddRenderedLink(front: seq<Section>, mid: Section, l: Link)
    requires CanonicalLabel(l.text)
    ensures AddItem(front + [mid], RenderLink(l)) == front + [mid.(links := mid.links + [l])]
  {
    ItemLinkOfRendered(l);
    assert (front + [mid])[..|front|] == front;
  }

  /** The rendered items of a section's links append exactly those links to its last section. */
  lemma {:induction false} AddRenderedLinks(front: seq<Section>, last: Section, ls: seq<Link>)
    requires forall j :: 0 <= j < |ls| ==> CanonicalLabel(ls[j].text)
    ensures AddItems(front + [last], RenderLinks(ls)) == front + [last.(links := last.links + ls)]
    decreases |ls|
  {
    if ls == [] {
      assert last.links + ls == last.links;
    } else {
      var init, l := ls[..|ls| - 1], ls[|ls| - 1];
      RenderLinksSnoc(ls);
      var items := RenderLinks(ls);
      assert items[..|items| - 1] == RenderLinks(init);
      AddRenderedLinks(front, last, init);
      AddRenderedLink(front, last.(links := last.links + init), l);
      assert last.links + init + [l] == last.links + ls;
    }
  }

  /** The untitled root section is created by the first rendered link and collects the rest. */
  lemma RootOfRenderedLinks(ls: seq<Link>)
    requires ls != []
    requires forall j :: 0 <= j < |ls| ==> CanonicalLabel(ls[j].text)
    ensures AddItems([], RenderLinks(ls)) == [Section(None, ls)]
  {
    var first := Section(None, [ls[0]]);
    assert RenderLinks(ls) == RenderLinks(ls[..1]) + RenderLinks(ls[1..]);
    AddItemsAppend([], RenderLinks(ls[..1]), RenderLinks(ls[1..]));
    assert RenderLinks(ls[..1]) == [RenderLink(ls[0])];
    assert RenderLinks(ls[..1])[..0] == [];
    ItemLinkOfRendered(ls[0]);
    assert AddItems([], RenderLinks(ls[..1])) == [] + [first];
    AddRenderedLinks([], first, ls[1..]);
    assert [ls[0]] + ls[1..] == ls;
  }

  /** Walking a rendered section appends exactly that section. */
  lemma WalkRenderedSection(front: seq<Section>, sec: Section)
    requires sec.links != [] && (forall j :: 0 <= j < |sec.links| ==> CanonicalLabel(sec.links[j].text))
    requires sec.text.Some? ==> Strip(sec.text.value) == sec.text.value
    requires sec.text.None? ==> front == []
    ensures Walk(front, RenderSection(sec)) == front + [sec]
  {
    var ul := Element("ul", map[], RenderLinks(sec.links));
    assert IsList(ul) && !IsHeading(ul);
    if sec.text.Some? {
      var h := Element("h2", map[], [Text(sec.text.value)]);
      assert IsHeading(h);
      assert TextContent(h) == sec.text.value by {
        TextOfSingle(Text(sec.text.value));
      }
      var started := front + [Section(sec.text, [])];
      assert Walk(front, [h]) == started by {
        assert [h][..0] == [];
      }
      assert RenderSection(sec) == [h] + [ul];
      WalkAppend(front, [h], [ul]);
      assert Walk(started, [ul]) == AddItems(started, RenderLinks(sec.links)) by {
        assert [ul][..0] == [];
        StepOfList(started, ul);
      }
      AddRenderedLinks(front, Section(sec.text, []), sec.links);
      assert [] + sec.links == sec.links;
    } else {
      assert RenderSection(sec) == [ul];
      assert [ul][..0] == [];
      StepOfList([], ul);
      RootOfRenderedLinks(sec.links);
    }
  }

  /** A section that can be rendered and read back after `front`: links with canonical labels, a stripped title, and no title only in front. */
  ghost predicate RenderableAfter(front: seq<Section>, last: Section) {
    && last.links != [] && (forall j :: 0 <= j < |last.links| ==> CanonicalLabel(last.links[j].text))
    && (last.text.Some? ==> Strip(last.text.value) == last.text.value)
    && (last.text.None? ==> front == [])
  }

  /** The sections before the last of a canonical index are canonical, and the last can be read back after them. */
  lemma CanonicalSplit(secs: seq<Section>)
    requires CanonicalIndex(secs) && secs != []
    ensures CanonicalIndex(secs[..|secs| - 1])
    ensures RenderableAfter(secs[..|secs| - 1], secs[|secs| - 1])
  {
  }

  lemma SplitLast(secs: seq<Section>)
    requires secs != []
    ensures secs[..|secs| - 1] + [secs[|secs| - 1]] == secs
  {
  }

  /** One more rendered section is read back after those already read back. */
  lemma WalkRenderSnoc(front: seq<Section>, last: Section)
    requires Walk([], Render(front)) == front
    requires RenderableAfter(front, last)
    ensures Walk([], Render(front + [last])) == front + [last]
  {
    assert (front + [last])[..|front|] == front;
    WalkAppend([], Render(front), RenderSection(last));
    WalkRenderedSection(front, last);
  }

  lemma {:induction false} WalkRender(secs: seq<Section>)
    requires CanonicalIndex(secs)
    ensures Walk([], Render(secs)) == secs
  {
    if secs != [] {
      var front, last := secs[..|secs| - 1], secs[|secs| - 1];
      CanonicalSplit(secs);
      WalkRender(front);
      WalkRenderSnoc(front, last);
      SplitLast(secs);
    }
  }

  lemma {:induction false} KeepLinkedOfLinked(secs: seq<Section>)
    requires forall i :: 0 <= i < |secs| ==> secs[i].links != []
    ensures KeepLinked(secs) == secs
  {
    if secs != [] {
      KeepLinkedOfLinked(secs[..|secs| - 1]);
    }
  }

  /** Any index of the canonical shape, which every parsed index has, is read back unchanged from its rendering. */
  lemma ParseRender(secs: seq<Section>)
    requires secs != [] && CanonicalIndex(secs)
    ensures ParseIndex(Render(secs)) == Some(secs)
  {
    WalkRender(secs);
    KeepLinkedOfLinked(secs);
  }

  /** Whatever the parser reads from a post, it reads again from that index's rendering. */
  lemma ParseRenderParse(body: seq<Node>)
    requires ParseIndex(body).Some?
    ensures ParseIndex(Render(ParseIndex(body).value)) == ParseIndex(body)
  {
    ParsedIsCanonical(body);
    ParseIndexSpec(body);
    ParseRender(ParseIndex(body).value);
  }

  // ---------------------------------------------------------------------------
  // Worked examples.

  /** "Test: " strips to "Test:". */
  lemma StripTestLabel()
    ensures Strip("Test: ") == "Test:"
  {
    DropLeadingNoop("Test: ", IsStripSpace);
    assert "Test: "[..5] == "Test:";
    DropTrailingNoop("Test:", IsStripSpace);
  }

  /** A leading "Test: " before the anchor names the link "Test" in the untitled root section. */
  /** The text "Test: " before an anchor labels it "Test". */
  lemma LeadingLabel()
    ensures ItemLabel([Text("Test: "), Element("a", map["href" := "/test"], [Text("x")])], 1) == "Test"
  {
    var cs := [Text("Test: "), Element("a", map["href" := "/test"], [Text("x")])];
    assert cs[..1] == [Text("Test: ")];
    TextOfSingle(Text("Test: "));
    StripTestLabel();
    assert !IsUnicodeSpace("Test:"[0]);
    assert EndsWith("Test:", ':');
    assert "Test:"[..4] == "Test";
  }

  /** The item with that label reads as the link "Test". */
  lemma LeadingLabelItem()
    ensures ItemLink(Element("li", map[], [Text("Test: "), Element("a", map["href" := "/test"], [Text("x")])]))
            == Some(Link("Test", Some("/test")))
  {
    var cs := [Text("Test: "), Element("a", map["href" := "/test"], [Text("x")])];
    assert LastAnchorIndex(cs) == Some(1);
    LeadingLabel();
    assert !IsUnicodeSpace("Test"[0]);
  }

  lemma LeadingLabelExample()
    ensures ParseIndex([Element("ul", map[], [Element("li", map[], [Text("Test: "),
              Element("a", map["href" := "/test"], [Text("x")])])])])
            == Some([Section(None, [Link("Test", Some("/test"))])])
  {
    var li := Element("li", map[], [Text("Test: "), Element("a", map["href" := "/test"], [Text("x")])]);
    var ul := Element("ul", map[], [li]);
    var link := Link("Test", Some("/test"));
    LeadingLabelItem();
    assert AddItems([], [li]) == [Section(None, [link])] by {
      assert [li][..0] == [];
    }
    assert Walk([], [ul]) == [Section(None, [link])] by {
      assert [ul][..0] == [];
      StepOfList([], ul);
    }
    KeepLinkedOfLinked([Section(None, [link])]);
  }

  /** Two lists before any heading fill the same root section, in order. */
  lemma TwoRootListsExample(l1: Link, l2: Link)
    requires CanonicalLabel(l1.text) && CanonicalLabel(l2.text)
    ensures ParseIndex([Element("ul", map[], [RenderLink(l1)]), Element("ol", map[], [RenderLink(l2)])])
            == Some([Section(None, [l1, l2])])
  {
    var u1 := Element("ul", map[], [RenderLink(l1)]);
    var u2 := Element("ol", map[], [RenderLink(l2)]);
    var root := Section(None, [l1]);
    assert Walk([], [u1]) == [root] by {
      assert [u1][..0] == [];
      StepOfList([], u1);
      assert RenderLinks([l1]) == [RenderLink(l1)];
      RootOfRenderedLinks([l1]);
    }
    assert Walk([], [u1, u2]) == [Section(None, [l1, l2])] by {
      assert [u1, u2][..1] == [u1];
      StepOfList([root], u2);
      assert RenderLinks([l2]) == [RenderLink(l2)];
      AddRenderedLinks([], root, [l2]);
      assert [] + [root] == [root];
      assert [l1] + [l2] == [l1, l2];
    }
    KeepLinkedOfLinked([Section(None, [l1, l2])]);
  }
}
