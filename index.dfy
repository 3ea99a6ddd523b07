/**
 * The index model (app/models/doc_categories/index.rb): its validations, and the
 * read-time projection of its stored sections into the sidebar structure.
 */
module IndexModel {
  import opened Wrappers
  import opened Text
  import opened Host
  import opened Store
  import opened Collections

  datatype IndexError =
    | CategoryIdBlank
    | CategoryIdTaken
    | IndexTopicIdBlank
    | IndexTopicIdTaken
    | TopicNotInCategory   // "must belong to the same category", on index_topic_id

  /** `index_topic_matches_category`: skipped when either id is blank; otherwise the index topic must exist and sit in that category. */
  predicate TopicMatchesCategory(categoryId: Option<int>, indexTopicId: Option<int>, site: Site) {
    categoryId.None? || indexTopicId.None?
    || (indexTopicId.value in site.topics && site.topics[indexTopicId.value].categoryId == categoryId)
  }

  /**
   * The errors of an index with these attributes, given the other stored indexes:
   * both ids present and unique, and the index topic in the index's category.
   */
  function IndexErrors(categoryId: Option<int>, indexTopicId: Option<int>, others: seq<IndexRecord>, site: Site): set<IndexError> {
    (if categoryId.None? then {CategoryIdBlank} else {})
    + (if categoryId.Some? && FindByCategory(others, categoryId.value).Some? then {CategoryIdTaken} else {})
    + (if indexTopicId.None? then {IndexTopicIdBlank} else {})
    + (if indexTopicId.Some? && FindByIndexTopic(others, indexTopicId.value).Some? then {IndexTopicIdTaken} else {})
    + (if !TopicMatchesCategory(categoryId, indexTopicId, site) then {TopicNotInCategory} else {})
  }

  /** An index saves exactly when both ids are present, no other index has either, and the topic is in the category. */
  lemma IndexErrorsEmptyIff(categoryId: Option<int>, indexTopicId: Option<int>, others: seq<IndexRecord>, site: Site)
    ensures IndexErrors(categoryId, indexTopicId, others, site) == {} <==>
      && categoryId.Some? && indexTopicId.Some?
      && (forall i :: 0 <= i < |others| ==> others[i].categoryId != categoryId.value && others[i].indexTopicId != indexTopicId.value)
      && indexTopicId.value in site.topics
      && site.topics[indexTopicId.value].categoryId == categoryId
  {
    if categoryId.Some? && FindByCategory(others, categoryId.value).Some? {
      assert CategoryIdTaken in IndexErrors(categoryId, indexTopicId, others, site);
    }
    if indexTopicId.Some? && FindByIndexTopic(others, indexTopicId.value).Some? {
      assert IndexTopicIdTaken in IndexErrors(categoryId, indexTopicId, others, site);
    }
    if !TopicMatchesCategory(categoryId, indexTopicId, site) {
      assert TopicNotInCategory in IndexErrors(categoryId, indexTopicId, others, site);
    }
  }

  /** A topic in a subcategory does not match the parent category's index. */
  lemma SubcategoryTopicDoesNotMatch(parent: int, child: int, topicId: int, others: seq<IndexRecord>, site: Site)
    requires parent != child
    requires topicId in site.topics && site.topics[topicId].categoryId == Some(child)
    ensures TopicNotInCategory in IndexErrors(Some(parent), Some(topicId), others, site)
  {
  }

  // ---------------------------------------------------------------------------
  // The sidebar structure.

  /** A link of the served structure: its label, the topic's URL and the topic's id. */
  datatype StructureLink = StructureLink(text: string, href: string, topicId: int)

  datatype StructureSection = StructureSection(text: Option<string>, links: seq<StructureLink>)

  /** `valid_link_target?`: a public, live, visible topic in exactly this category. */
  predicate ValidLinkTarget(topic: Option<Topic>, categoryId: int) {
    && topic.Some?
    && !topic.value.isPrivateMessage
    && !topic.value.trashed
    && topic.value.visible
    && topic.value.categoryId == Some(categoryId)
  }

  /** `link.topic`: nil without a topic id or when no such topic exists. */
  function LinkTopic(link: LinkRecord, site: Site): (r: Option<Topic>)
    ensures r.Some? ==> link.topicId.Some? && link.topicId.value in site.topics && r.value == site.topics[link.topicId.value]
  {
    if link.topicId.Some? then site.FindTopic(link.topicId.value) else None
  }

  /** The served form of a link: dropped unless its topic is a valid target; the stored title, else the topic's title; the topic's URL. */
  function ProjectLink(link: LinkRecord, categoryId: int, site: Site): Option<StructureLink> {
    var topic := LinkTopic(link, site);
    if !ValidLinkTarget(topic, categoryId) then None
    else
      var text := if link.title.Some? && !IsBlank(link.title.value) then link.title.value else topic.value.title;
      Some(StructureLink(text, topic.value.relativeUrl, topic.value.id))
  }

  /** The `filter_map` over one section's links, in the order given. */
  function ProjectLinks(links: seq<LinkRecord>, categoryId: int, site: Site): seq<StructureLink> {
    if links == [] then []
    else
      var p := ProjectLink(links[|links| - 1], categoryId, site);
      ProjectLinks(links[..|links| - 1], categoryId, site) + (if p.Some? then [p.value] else [])
  }

  /** The `map ... compact` over sections in the order given: sections left without links are omitted. */
  function ProjectSections(secs: seq<SectionRecord>, categoryId: int, site: Site): seq<StructureSection> {
    if secs == [] then []
    else
      var last := secs[|secs| - 1];
      var links := ProjectLinks(SortBy(last.links, LinkPosition), categoryId, site);
      ProjectSections(secs[..|secs| - 1], categoryId, site)
      + (if links == [] then [] else [StructureSection(last.title, links)])
  }

  /** `sidebar_structure`: sections by position, each with its links by position. */
  function SidebarStructure(index: IndexRecord, site: Site): seq<StructureSection> {
    ProjectSections(SortBy(index.sections, SectionPosition), index.categoryId, site)
  }

  /** The `select` over one section's links: the topic ids of the valid targets, in order. */
  function ValidLinkTopicIds(links: seq<LinkRecord>, categoryId: int, site: Site): seq<int> {
    if links == [] then []
    else
      var last := links[|links| - 1];
      ValidLinkTopicIds(links[..|links| - 1], categoryId, site)
      + (if ValidLinkTarget(LinkTopic(last, site), categoryId) then [last.topicId.value] else [])
  }

  function ValidSectionTopicIds(secs: seq<SectionRecord>, categoryId: int, site: Site): seq<int> {
    if secs == [] then []
    else
      ValidSectionTopicIds(secs[..|secs| - 1], categoryId, site)
      + ValidLinkTopicIds(SortBy(secs[|secs| - 1].links, LinkPosition), categoryId, site)
  }

  /** `valid_sidebar_topic_ids`: the topic ids of the valid links, first occurrences only. */
  function ValidSidebarTopicIds(index: IndexRecord, site: Site): seq<int> {
    Dedup(ValidSectionTopicIds(SortBy(index.sections, SectionPosition), index.categoryId, site))
  }

  // ---------------------------------------------------------------------------
  // What the structure promises.

  /** Every served link points at a valid target in the index's category, by that topic's URL. */
  ghost predicate ServedLink(l: StructureLink, categoryId: int, site: Site) {
    && l.topicId in site.topics
    && ValidLinkTarget(Some(site.topics[l.topicId]), categoryId)
    && l.href == site.topics[l.topicId].relativeUrl
  }

  function StructureTopicIds(links: seq<StructureLink>): seq<int> {
    if links == [] then [] else StructureTopicIds(links[..|links| - 1]) + [links[|links| - 1].topicId]
  }

  function AllStructureTopicIds(secs: seq<StructureSection>): seq<int> {
    if secs == [] then [] else AllStructureTopicIds(secs[..|secs| - 1]) + StructureTopicIds(secs[|secs| - 1].links)
  }

  lemma StructureTopicIdsSnoc(links: seq<StructureLink>, l: StructureLink)
    ensures StructureTopicIds(links + [l]) == StructureTopicIds(links) + [l.topicId]
  {
    assert (links + [l])[..|links|] == links;
  }

  /** The `filter_map`'s filter alone: the link records whose topic is a valid target, in order. */
  function ValidLinks(links: seq<LinkRecord>, categoryId: int, site: Site): seq<LinkRecord> {
    if links == [] then []
    else
      var last := links[|links| - 1];
      ValidLinks(links[..|links| - 1], categoryId, site) + (if ValidLinkTarget(LinkTopic(last, site), categoryId) then [last] else [])
  }

  /**
   * `s` is served for the record `link`: for the record's topic, labelled with the record's
   * title when that is present, and with the topic's title otherwise.
   */
  ghost predicate ServedFrom(link: LinkRecord, s: StructureLink, site: Site) {
    && link.topicId.Some? && link.topicId.value in site.topics
    && s.topicId == site.topics[link.topicId.value].id
    && s.href == site.topics[link.topicId.value].relativeUrl
    && (link.title.Some? && !IsBlank(link.title.value) ==> s.text == link.title.value)
    && (link.title.None? || IsBlank(link.title.value) ==> s.text == site.topics[link.topicId.value].title)
  }

  /** The j-th served link of a section is served for its j-th valid record, labelled as `link.title.presence || topic.title` says. */
  lemma {:induction false} ProjectLinksLabels(links: seq<LinkRecord>, categoryId: int, site: Site)
    ensures |ProjectLinks(links, categoryId, site)| == |ValidLinks(links, categoryId, site)|
    ensures forall j :: 0 <= j < |ProjectLinks(links, categoryId, site)| ==>
      ServedFrom(ValidLinks(links, categoryId, site)[j], ProjectLinks(links, categoryId, site)[j], site)
  {
    if links != [] {
      var front, last := links[..|links| - 1], links[|links| - 1];
      ProjectLinksLabels(front, categoryId, site);
      var p := ProjectLink(last, categoryId, site);
      var ps, vs := ProjectLinks(front, categoryId, site), ValidLinks(front, categoryId, site);
      if p.Some? {
        assert ProjectLinks(links, categoryId, site) == ps + [p.value];
        assert ValidLinks(links, categoryId, site) == vs + [last];
        assert ServedFrom(last, p.value, site);
      } else {
        assert ProjectLinks(links, categoryId, site) == ps;
        assert ValidLinks(links, categoryId, site) == vs;
      }
    }
  }

  /**
   * One section's served links are exactly its valid links, in order, each pointing at
   * its topic's URL and labelled with the record's title, or the topic's title when that
   * is blank.
   */
  lemma ProjectLinksSpec(links: seq<LinkRecord>, categoryId: int, site: Site)
    requires site.ConsistentIds()
    ensures forall i :: 0 <= i < |ProjectLinks(links, categoryId, site)| ==> ServedLink(ProjectLinks(links, categoryId, site)[i], categoryId, site)
    ensures StructureTopicIds(ProjectLinks(links, categoryId, site)) == ValidLinkTopicIds(links, categoryId, site)
    ensures |ProjectLinks(links, categoryId, site)| == |ValidLinks(links, categoryId, site)|
    ensures forall j :: 0 <= j < |ProjectLinks(links, categoryId, site)| ==>
      ServedFrom(ValidLinks(links, categoryId, site)[j], ProjectLinks(links, categoryId, site)[j], site)
  {
    ProjectLinksServed(links, categoryId, site);
    ProjectLinksLabels(links, categoryId, site);
  }

  /** The served links point at valid targets by their URLs, and their ids are the valid ids in order. */
  lemma {:induction false} ProjectLinksServed(links: seq<LinkRecord>, categoryId: int, site: Site)
    requires site.ConsistentIds()
    ensures forall i :: 0 <= i < |ProjectLinks(links, categoryId, site)| ==> ServedLink(ProjectLinks(links, categoryId, site)[i], categoryId, site)
    ensures StructureTopicIds(ProjectLinks(links, categoryId, site)) == ValidLinkTopicIds(links, categoryId, site)
  {
    if links != [] {
      var front, last := links[..|links| - 1], links[|links| - 1];
      ProjectLinksServed(front, categoryId, site);
      var p := ProjectLink(last, categoryId, site);
      if p.Some? {
        assert ProjectLinks(links, categoryId, site) == ProjectLinks(front, categoryId, site) + [p.value];
        StructureTopicIdsSnoc(ProjectLinks(front, categoryId, site), p.value);
      } else {
        assert ProjectLinks(links, categoryId, site) == ProjectLinks(front, categoryId, site);
      }
    }
  }

  lemma {:induction false} ProjectSectionsSpec(secs: seq<SectionRecord>, categoryId: int, site: Site)
    requires site.ConsistentIds()
    ensures forall i :: 0 <= i < |ProjectSections(secs, categoryId, site)| ==> ProjectSections(secs, categoryId, site)[i].links != []
    ensures forall i, j :: 0 <= i < |ProjectSections(secs, categoryId, site)| && 0 <= j < |ProjectSections(secs, categoryId, site)[i].links| ==>
      ServedLink(ProjectSections(secs, categoryId, site)[i].links[j], categoryId, site)
    ensures AllStructureTopicIds(ProjectSections(secs, categoryId, site)) == ValidSectionTopicIds(secs, categoryId, site)
  {
    if secs != [] {
      var front, last := secs[..|secs| - 1], secs[|secs| - 1];
      ProjectSectionsSpec(front, categoryId, site);
      var sorted := SortBy(last.links, LinkPosition);
      ProjectLinksSpec(sorted, categoryId, site);
      var links := ProjectLinks(sorted, categoryId, site);
      var rest := ProjectSections(front, categoryId, site);
      if links != [] {
        var s := StructureSection(last.title, links);
        assert ProjectSections(secs, categoryId, site) == rest + [s];
        assert (rest + [s])[..|rest|] == rest;
      } else {
        assert ProjectSections(secs, categoryId, site) == rest;
        assert ValidLinkTopicIds(sorted, categoryId, site) == StructureTopicIds(links) == [];
        assert ValidSectionTopicIds(secs, categoryId, site) == ValidSectionTopicIds(front, categoryId, site) + [];
      }
    }
  }

  /**
   * The served structure: no empty section, every link a valid same-category target
   * addressed by its topic's URL, and `valid_sidebar_topic_ids` exactly the served
   * topic ids without repeats.
   */
  lemma SidebarStructureSpec(index: IndexRecord, site: Site)
    requires site.ConsistentIds()
    ensures var s := SidebarStructure(index, site);
      forall i :: 0 <= i < |s| ==> s[i].links != []
    ensures var s := SidebarStructure(index, site);
      forall i, j :: 0 <= i < |s| && 0 <= j < |s[i].links| ==> ServedLink(s[i].links[j], index.categoryId, site)
    ensures ValidSidebarTopicIds(index, site) == Dedup(AllStructureTopicIds(SidebarStructure(index, site)))
  {
    ProjectSectionsSpec(SortBy(index.sections, SectionPosition), index.categoryId, site);
  }

  /** A link to a topic in a subcategory, an invisible topic, or no topic at all is never served. */
  lemma InvalidTargetsAreDropped(link: LinkRecord, categoryId: int, site: Site)
    requires link.topicId.None?
      || link.topicId.value !in site.topics
      || !site.topics[link.topicId.value].visible
      || site.topics[link.topicId.value].categoryId != Some(categoryId)
    ensures ProjectLink(link, categoryId, site).None?
  {
  }
}
