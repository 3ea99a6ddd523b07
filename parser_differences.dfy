/**
 * The server and client parsers read the same list item differently in two cases:
 * the server takes the last anchor that is a direct child of the item, the client the
 * first anchor anywhere below it; and a leading text without a ":" makes the server fall
 * back to the anchor's text while the client skips the item.
 */
module ParserDifferences {
  import opened Wrappers
  import opened Text
  import opened Html
  import DocIndexTopicParser
  import SidebarStructureParser

  /** A one-character label that neither trimming changes and that is not blank. */
  lemma PlainLetter(c: char)
    requires 'a' <= c <= 'z'
    ensures Strip([c]) == [c] && JsTrim([c]) == [c] && !IsBlank([c])
  {
    DropLeadingNoop([c], IsStripSpace);
    DropTrailingNoop([c], IsStripSpace);
    DropLeadingNoop([c], IsJsSpace);
    DropTrailingNoop([c], IsJsSpace);
    assert !IsUnicodeSpace([c][0]);
  }

  function Anchor(href: string, caption: string): Node {
    Element("a", map["href" := href], [Text(caption)])
  }

  /** An anchor captioned with one letter reads as that letter. */
  lemma AnchorText(href: string, c: char)
    requires 'a' <= c <= 'z'
    ensures TextContent(Anchor(href, [c])) == [c] && TextOfNodes([Anchor(href, [c])]) == [c]
  {
    TextOfSingle(Text([c]));
    TextOfSingle(Anchor(href, [c]));
  }

  /** The server labels the second of two anchors by its own caption. */
  lemma ServerLabelOfSecondAnchor()
    ensures DocIndexTopicParser.ItemLabel([Anchor("/one", "a"), Anchor("/two", "b")], 1) == "b"
  {
    var cs := [Anchor("/one", "a"), Anchor("/two", "b")];
    assert cs[..1] == [Anchor("/one", "a")];
    AnchorText("/one", 'a');
    AnchorText("/two", 'b');
    PlainLetter('a');
    PlainLetter('b');
    assert !EndsWith("a", ':');
  }

  lemma ServerReadsLastAnchor()
    ensures DocIndexTopicParser.ItemLink(Element("li", map[], [Anchor("/one", "a"), Anchor("/two", "b")]))
            == Some(DocIndexTopicParser.Link("b", Some("/two")))
  {
    var cs := [Anchor("/one", "a"), Anchor("/two", "b")];
    assert DocIndexTopicParser.LastAnchorIndex(cs) == Some(1);
    ServerLabelOfSecondAnchor();
    PlainLetter('b');
  }

  /** The first anchor below two side-by-side anchors is the first of them. */
  lemma FirstOfTwoAnchors()
    ensures FirstDescendant([Anchor("/one", "a"), Anchor("/two", "b")], "a") == Some(Anchor("/one", "a"))
  {
    assert IsElementNamed(Anchor("/one", "a"), "a");
  }

  /** Without leading text the client labels an item by its anchor's trimmed text. */
  lemma ClientLabelOfAnchor()
    ensures SidebarStructureParser.JsItemLabel([Anchor("/one", "a"), Anchor("/two", "b")], Anchor("/one", "a")) == Some("a")
  {
    AnchorText("/one", 'a');
    PlainLetter('a');
    assert JsTrim(TextContent(Anchor("/one", "a"))) == "a";
  }

  lemma ClientReadsFirstAnchor(env: SidebarStructureParser.Env)
    ensures SidebarStructureParser.JsItemLink(env, Element("li", map[], [Anchor("/one", "a"), Anchor("/two", "b")]))
            == Some(SidebarStructureParser.JsLink(env.resolveHref(Some("/one")), "a"))
  {
    var cs := [Anchor("/one", "a"), Anchor("/two", "b")];
    FirstOfTwoAnchors();
    ClientLabelOfAnchor();
    assert Attr(cs[0], "href") == Some("/one");
  }

  /** An item with two anchors side by side: the server reads the second, the client the first. */
  lemma TwoAnchorsDiffer(env: SidebarStructureParser.Env)
    ensures var item := Element("li", map[], [Anchor("/one", "a"), Anchor("/two", "b")]);
      && DocIndexTopicParser.ItemLink(item) == Some(DocIndexTopicParser.Link("b", Some("/two")))
      && SidebarStructureParser.JsItemLink(env, item) == Some(SidebarStructureParser.JsLink(env.resolveHref(Some("/one")), "a"))
  {
    ServerReadsLastAnchor();
    ClientReadsFirstAnchor(env);
  }

  /** Leading text without a ":" leaves the server's label to the anchor. */
  lemma ServerLabelAfterPlainText()
    ensures DocIndexTopicParser.ItemLabel([Text("c"), Anchor("/x", "b")], 1) == "b"
  {
    var cs := [Text("c"), Anchor("/x", "b")];
    assert TextOfNodes(cs[..1]) == "c" by {
      assert cs[..1] == [Text("c")];
      TextOfSingle(Text("c"));
    }
    PlainLetter('c');
    var prefix := Strip(TextOfNodes(cs[..1]));
    assert prefix == "c";
    assert !EndsWith(prefix, ':');
    AnchorText("/x", 'b');
    PlainLetter('b');
    assert Strip(TextContent(cs[1])) == "b";
  }

  /** The server ignores leading text without a ":" and labels the item by its anchor. */
  lemma ServerFallsBackToAnchor()
    ensures DocIndexTopicParser.ItemLink(Element("li", map[], [Text("c"), Anchor("/x", "b")]))
            == Some(DocIndexTopicParser.Link("b", Some("/x")))
  {
    var cs := [Text("c"), Anchor("/x", "b")];
    assert DocIndexTopicParser.LastAnchorIndex(cs) == Some(1);
    ServerLabelAfterPlainText();
    PlainLetter('b');
  }

  /** Below leading text, the first anchor is the one after it. */
  lemma AnchorAfterText()
    ensures FirstDescendant([Text("c"), Anchor("/x", "b")], "a") == Some(Anchor("/x", "b"))
  {
    var cs := [Text("c"), Anchor("/x", "b")];
    assert !IsElementNamed(cs[0], "a");
    assert FirstDescendantBelow(cs[0], "a") == None;
    assert cs[1..] == [Anchor("/x", "b")];
    assert IsElementNamed(Anchor("/x", "b"), "a");
  }

  /** The client finds the anchor but, with leading text without a ":", yields no label. */
  lemma ClientSkipsLeadingText(env: SidebarStructureParser.Env)
    ensures SidebarStructureParser.JsItemLink(env, Element("li", map[], [Text("c"), Anchor("/x", "b")])) == None
  {
    var cs := [Text("c"), Anchor("/x", "b")];
    AnchorAfterText();
    PlainLetter('c');
    assert !EndsWith("c", ':');
    assert SidebarStructureParser.JsItemLabel(cs, cs[1]) == None;
  }

  /** An item whose leading text has no ":": the server falls back to the anchor's text, the client skips it. */
  lemma LeadingTextWithoutColonDiffers(env: SidebarStructureParser.Env)
    ensures var item := Element("li", map[], [Text("c"), Anchor("/x", "b")]);
      && DocIndexTopicParser.ItemLink(item) == Some(DocIndexTopicParser.Link("b", Some("/x")))
      && SidebarStructureParser.JsItemLink(env, item) == None
  {
    ServerFallsBackToAnchor();
    ClientSkipsLeadingText(env);
  }
}
