/**
 * The docs sidebar panel (assets/javascripts/discourse/lib/doc-category-sidebar-panel.js).
 *
 * The panel turns each section of the service's `sectionsConfig` into a sidebar section
 * and each of its links into a section link, naming them after the panel key and the
 * slugs of their texts. When a filter matches nothing, it offers a search restricted to
 * the active category, written as a `#parent:child` category filter.
 */
module DocCategorySidebarPanel {
  import opened Wrappers
  import opened Text
  import opened IndexModel
  import opened DocCategorySidebar
  import SP = SidebarStructureParser

  /** A section link as the panel shows it. */
  datatype PanelLink = PanelLink(name: string, href: string, text: string, keywords: seq<string>)

  /** A section as the panel shows it; `text` is also its title. */
  datatype PanelSection = PanelSection(name: string, text: Option<string>, hideHeader: bool, links: seq<PanelLink>)

  /** JavaScript truthiness of an optional string: present and not empty. */
  predicate Truthy(text: Option<string>) {
    text.Some? && text.value != ""
  }

  /** `generateSectionName`: the root name for a section without a (non-empty) text. */
  function GenerateSectionName(env: SP.Env, config: StructureSection): string {
    if Truthy(config.text) then SP.SectionName(env, config.text.value) else SP.RootSectionName
  }

  /** `generateSectionLinkName`. */
  function GenerateSectionLinkName(env: SP.Env, sectionName: string, link: StructureLink): string {
    sectionName + "___" + env.slugify(link.text)
  }

  /** `hideSectionHeader`. */
  predicate HideSectionHeader(config: StructureSection) {
    !Truthy(config.text)
  }

  /** The `keywords` navigation list: the lower-cased text split at white-space runs (`toLowerCase` is `lower`). */
  function Keywords(lower: string -> string, link: StructureLink): seq<string> {
    SplitOnSpaceRuns(lower(link.text))
  }

  function PrepareLink(env: SP.Env, lower: string -> string, sectionName: string, link: StructureLink): PanelLink {
    PanelLink(GenerateSectionLinkName(env, sectionName, link), link.href, link.text, Keywords(lower, link))
  }

  /** `prepareDocsSection`. */
  function PrepareSection(env: SP.Env, lower: string -> string, config: StructureSection): PanelSection {
    var name := GenerateSectionName(env, config);
    PanelSection(name, config.text, HideSectionHeader(config),
      seq(|config.links|, j requires 0 <= j < |config.links| => PrepareLink(env, lower, name, config.links[j])))
  }

  /** `sections`: one sidebar section per section of the shown index. */
  function Sections(env: SP.Env, lower: string -> string, s: SidebarState): seq<PanelSection> {
    var configs := SectionsConfig(s);
    seq(|configs|, i requires 0 <= i < |configs| => PrepareSection(env, lower, configs[i]))
  }

  /**
   * `#assembleCategoryFilter` over a lineage (the category, then its ancestors): the
   * filter collected so far when no category is left, no filter past the second level,
   * and otherwise "#" and the root's slug followed by the child's ":" and slug.
   */
  function AssembleCategoryFilter(filter: string, lineage: seq<ClientCategory>, level: int): Option<string>
    decreases |lineage|
  {
    if lineage == [] then Some(filter)
    else if level > 2 then None
    else if |lineage| > 1 then AssembleCategoryFilter(":" + lineage[0].slug, lineage[1..], level + 1)
    else Some("#" + lineage[0].slug + filter)
  }

  /** The query of the no-results content search: the filter, and a space and the category filter when a category is active. */
  function ContentSearchQuery(filter: string, active: seq<ClientCategory>): string {
    if active == [] then filter
    else filter + " " + AssembleCategoryFilter("", active, 1).GetOr("category:" + IntToDecimal(active[0].id))
  }

  // ---------------------------------------------------------------------------
  // What the panel promises.

  /**
   * The category filter names a top-level category by its slug and a subcategory by its
   * parent's slug and its own; deeper categories get none.
   */
  lemma CategoryFilterSpec(active: seq<ClientCategory>)
    ensures |active| == 1 ==> AssembleCategoryFilter("", active, 1) == Some("#" + active[0].slug)
    ensures |active| == 2 ==> AssembleCategoryFilter("", active, 1) == Some("#" + active[1].slug + ":" + active[0].slug)
    ensures |active| >= 3 ==> AssembleCategoryFilter("", active, 1).None?
  {
    if |active| == 1 {
      assert "#" + active[0].slug + "" == "#" + active[0].slug;
    } else if |active| >= 2 {
      assert AssembleCategoryFilter("", active, 1) == AssembleCategoryFilter(":" + active[0].slug, active[1..], 2);
      if |active| == 2 {
        assert active[1..][1..] == [];
        assert "#" + active[1].slug + (":" + active[0].slug) == "#" + active[1].slug + ":" + active[0].slug;
      } else {
        assert AssembleCategoryFilter(":" + active[0].slug, active[1..], 2)
          == AssembleCategoryFilter(":" + active[1].slug, active[2..], 3);
      }
    }
  }

  /**
   * The content search looks for the filter within the active category: its slug path
   * when it is at most a subcategory, its id otherwise, and nothing more without one.
   */
  lemma ContentSearchQuerySpec(filter: string, active: seq<ClientCategory>)
    ensures active == [] ==> ContentSearchQuery(filter, active) == filter
    ensures |active| == 1 ==> ContentSearchQuery(filter, active) == filter + " #" + active[0].slug
    ensures |active| == 2 ==> ContentSearchQuery(filter, active) == filter + " #" + active[1].slug + ":" + active[0].slug
    ensures |active| >= 3 ==> ContentSearchQuery(filter, active) == filter + " category:" + IntToDecimal(active[0].id)
  {
    CategoryFilterSpec(active);
    if |active| == 1 {
      var slug := active[0].slug;
      assert filter + " " + ("#" + slug) == filter + " #" + slug;
    } else if |active| == 2 {
      var child, parent := active[0].slug, active[1].slug;
      assert filter + " " + ("#" + parent + ":" + child) == filter + " #" + parent + ":" + child;
    } else if |active| >= 3 {
      var id := IntToDecimal(active[0].id);
      assert filter + " " + ("category:" + id) == filter + " category:" + id;
    }
  }

  /**
   * A section takes the root name exactly when its header is hidden; a section with a
   * heading is named like the parser names it.
   */
  lemma SectionNameSpec(env: SP.Env, config: StructureSection)
    ensures GenerateSectionName(env, config) == SP.RootSectionName <==> HideSectionHeader(config)
    ensures Truthy(config.text) ==> GenerateSectionName(env, config) == SP.SectionName(env, config.text.value)
  {
  }

  /**
   * The panel shows one section per section of the index, with its text and its links in
   * order; each link keeps its href and text and is named after its section.
   */
  lemma SectionsSpec(env: SP.Env, lower: string -> string, s: SidebarState)
    ensures |Sections(env, lower, s)| == |SectionsConfig(s)|
    ensures forall i :: 0 <= i < |SectionsConfig(s)| ==>
      var c, p := SectionsConfig(s)[i], Sections(env, lower, s)[i];
      p.text == c.text && p.name == GenerateSectionName(env, c) && |p.links| == |c.links|
      && (forall j :: 0 <= j < |c.links| ==>
            p.links[j].href == c.links[j].href && p.links[j].text == c.links[j].text
            && |p.links[j].name| >= |p.name| + 3 && p.links[j].name[..|p.name| + 3] == p.name + "___")
    ensures s.indexConfig.None? ==> Sections(env, lower, s) == []
  {
    forall i | 0 <= i < |SectionsConfig(s)|
      ensures var c, p := SectionsConfig(s)[i], Sections(env, lower, s)[i];
        forall j :: 0 <= j < |c.links| ==>
          |p.links[j].name| >= |p.name| + 3 && p.links[j].name[..|p.name| + 3] == p.name + "___"
    {
      var c, p := SectionsConfig(s)[i], Sections(env, lower, s)[i];
      forall j | 0 <= j < |c.links|
        ensures |p.links[j].name| >= |p.name| + 3 && p.links[j].name[..|p.name| + 3] == p.name + "___"
      {
        var slug := env.slugify(c.links[j].text);
        assert p.links[j].name == (p.name + "___") + slug;
      }
    }
  }

  /**
   * A link's keywords are the words of its lower-cased text: at least one piece, none
   * holding white space, together the text's non-space characters in order.
   */
  lemma KeywordsSpec(lower: string -> string, link: StructureLink)
    ensures |Keywords(lower, link)| > 0
    ensures forall j :: 0 <= j < |Keywords(lower, link)| ==> NoSpace(Keywords(lower, link)[j])
    ensures Concat(Keywords(lower, link)) == NonSpace(lower(link.text))
  {
    SplitOnSpaceRunsNoSpace(lower(link.text));
    SplitOnSpaceRunsKeepsText(lower(link.text));
  }
}
