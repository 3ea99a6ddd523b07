/**
 * The structure refresher (app/services/doc_categories/index_structure_refresher.rb).
 *
 * `refresh!` finds the category's index; drops it when its index topic is no longer a
 * usable index topic; otherwise parses the topic's cooked first post, turns the parsed
 * sections into links with topic ids and labels (`build_sections`) and, in one
 * transaction, replaces the index's sections and links with them, numbered from 0 in
 * order. A row that fails its validation aborts the transaction and nothing changes.
 *
 * `Refreshed` is the whole effect as a function of the stored indexes and the site; the
 * method `IndexStructureRefresher.Refresh` does the same work in place on a `Db` and is
 * proved equal to it.
 */
module Refresher {
  import opened Wrappers
  import opened Text
  import opened Html
  import opened Host
  import opened Store
  import opened Url
  import opened Collections
  import P = DocIndexTopicParser
  import SidebarSectionModel
  import SidebarLinkModel

  /** A built link: its label, its non-blank href, and the topic id the href routes to. */
  datatype BuiltLink = BuiltLink(text: string, href: string, topicId: Option<int>)

  datatype BuiltSection = BuiltSection(text: Option<string>, links: seq<BuiltLink>)

  /** What a refresh did. */
  datatype Outcome =
    | NoIndex          // the category has no index
    | IndexDestroyed   // the index topic is gone, private, trashed or moved: the index is destroyed
    | NoContent        // the index topic has no cooked first post: nothing changes
    | Rebuilt          // the sections and links were replaced
    | RecordInvalid    // a row failed validation: the transaction rolled back and the error propagates

  datatype Refresh = Refresh(outcome: Outcome, indexes: seq<IndexRecord>, events: seq<Event>)

  /** `valid_topic?`: present, not a private message, not trashed, and in the refreshed category. */
  predicate ValidIndexTopic(topic: Option<Topic>, categoryId: int) {
    && topic.Some?
    && !topic.value.isPrivateMessage
    && !topic.value.trashed
    && topic.value.categoryId == Some(categoryId)
  }

  /** `first_post&.cooked.present?`: the cooked text when there is some that is not blank. */
  function CookedBody(site: Site, topicId: int): (r: Option<string>)
    ensures r.Some? <==> site.FirstPost(topicId).Some? && site.FirstPost(topicId).value.cooked.Some?
                         && !IsBlank(site.FirstPost(topicId).value.cooked.value)
    ensures r.Some? ==> r == site.FirstPost(topicId).value.cooked
  {
    match site.FirstPost(topicId)
    case None => None
    case Some(post) => if post.cooked.Some? && !IsBlank(post.cooked.value) then post.cooked else None
  }

  /** `publish_changes`: a cache clear and a category publish, when the category still exists. */
  function PublishChanges(site: Site, categoryId: int): seq<Event> {
    if categoryId in site.categories then [ClearSiteCache, PublishCategory(categoryId)] else []
  }

  // ---------------------------------------------------------------------------
  // build_sections

  /** `topic_ids`: the topic ids of all links' hrefs, first occurrences only. */
  function CandidateTopicIds(site: Site, raw: seq<P.Section>): seq<int> {
    var links := P.AllLinks(raw);
    Dedup(Compact(seq(|links|, i requires 0 <= i < |links| => HrefTopicId(site, links[i].href))))
  }

  /** `topics_by_id`: the existing topics among `ids`, by id. */
  function TopicsById(site: Site, ids: seq<int>): map<int, Topic> {
    map id | id in ids && id in site.topics :: site.topics[id]
  }

  /**
   * One link: skipped when its href is nil or blank; otherwise labelled with its own text,
   * else the target topic's title, else the href itself.
   */
  function BuildLink(site: Site, topics: map<int, Topic>, link: P.Link): Option<BuiltLink> {
    if link.href.None? || IsBlank(link.href.value) then None
    else
      var href := link.href.value;
      var topicId := ExtractTopicIdFromUrl(site.routeFor, href);
      var text :=
        if !IsBlank(link.text) then link.text
        else if topicId.Some? && topicId.value in topics then topics[topicId.value].title
        else href;
      Some(BuiltLink(text, href, topicId))
  }

  function BuildLinks(site: Site, topics: map<int, Topic>, links: seq<P.Link>): seq<BuiltLink> {
    if links == [] then []
    else
      var b := BuildLink(site, topics, links[|links| - 1]);
      BuildLinks(site, topics, links[..|links| - 1]) + (if b.Some? then [b.value] else [])
  }

  /** The `filter_map` over sections: a section left without links is dropped. */
  function BuildSectionList(site: Site, topics: map<int, Topic>, raw: seq<P.Section>): seq<BuiltSection> {
    if raw == [] then []
    else
      var last := raw[|raw| - 1];
      var links := BuildLinks(site, topics, last.links);
      BuildSectionList(site, topics, raw[..|raw| - 1]) + (if links == [] then [] else [BuiltSection(last.text, links)])
  }

  /** `build_sections`: nothing for a nil or empty parse. */
  function BuildSections(site: Site, raw: Option<seq<P.Section>>): seq<BuiltSection> {
    if raw.None? || raw.value == [] then []
    else BuildSectionList(site, TopicsById(site, CandidateTopicIds(site, raw.value)), raw.value)
  }

  // ---------------------------------------------------------------------------
  // The stored rows.

  function Positions(n: nat): seq<int> {
    seq(n, k => k)
  }

  /** The `create!` of the link at `position` in the section at `sectionPosition` passes validation. */
  predicate LinkSaves(sectionPosition: int, link: BuiltLink, position: nat) {
    SidebarLinkModel.LinkErrors(Some(sectionPosition), Some(position), Some(link.text), Some(link.href), Positions(position)) == {}
  }

  /** The `create!` of the section at `position` of the index of `categoryId` passes validation. */
  predicate SectionSaves(categoryId: int, section: BuiltSection, position: nat) {
    SidebarSectionModel.SectionErrors(Some(categoryId), Some(position), section.text, Positions(position)) == {}
  }

  /** Every section and every link of `built` saves. */
  predicate Storable(categoryId: int, built: seq<BuiltSection>) {
    forall i :: 0 <= i < |built| ==>
      && SectionSaves(categoryId, built[i], i)
      && forall j :: 0 <= j < |built[i].links| ==> LinkSaves(i, built[i].links[j], j)
  }

  predicate LinksStorable(sectionPosition: int, links: seq<BuiltLink>) {
    forall j :: 0 <= j < |links| ==> LinkSaves(sectionPosition, links[j], j)
  }

  /** The rows `each_with_index` creates for one section's links. */
  function StoredLinks(links: seq<BuiltLink>): seq<LinkRecord> {
    seq(|links|, j requires 0 <= j < |links| => LinkRecord(Some(links[j].text), Some(links[j].href), links[j].topicId, j))
  }

  /** The rows `each_with_index` creates for the sections, each with its links. */
  function StoredSections(built: seq<BuiltSection>): seq<SectionRecord> {
    seq(|built|, i requires 0 <= i < |built| => SectionRecord(built[i].text, i, StoredLinks(built[i].links)))
  }

  // ---------------------------------------------------------------------------
  // The whole refresh.

  /** `refresh!` for `categoryId`, over the stored indexes and the site. */
  function Refreshed(categoryId: int, indexes: seq<IndexRecord>, site: Site): Refresh {
    match FindByCategory(indexes, categoryId)
    case None => Refresh(NoIndex, indexes, [])
    case Some(k) =>
      var index := indexes[k];
      if !ValidIndexTopic(site.FindTopic(index.indexTopicId), categoryId) then
        Refresh(IndexDestroyed, DestroyAt(indexes, k), PublishChanges(site, index.categoryId))
      else
        match CookedBody(site, index.indexTopicId)
        case None => Refresh(NoContent, indexes, [])
        case Some(cooked) => Rebuild(categoryId, indexes, k, site, BuildSections(site, P.ParseIndex(site.parseHtml(cooked))))
  }

  /** The rebuild of index `k` from the built sections: all rows replaced, or nothing when a row fails. */
  function Rebuild(categoryId: int, indexes: seq<IndexRecord>, k: nat, site: Site, built: seq<BuiltSection>): Refresh
    requires k < |indexes|
  {
    var index := indexes[k];
    if !Storable(categoryId, built) then Refresh(RecordInvalid, indexes, [])
    else
      Refresh(Rebuilt, indexes[k := index.(sections := StoredSections(built))],
              [TouchIndex(index.categoryId)] + PublishChanges(site, index.categoryId))
  }

  class IndexStructureRefresher {
    const categoryId: int

    constructor (categoryId: int)
      ensures this.categoryId == categoryId
    {
      this.categoryId := categoryId;
    }

    /** `refresh!`. */
    method Refresh(db: Db, site: Site) returns (outcome: Outcome)
      modifies db
      ensures var r := Refreshed(categoryId, old(db.indexes), site);
        outcome == r.outcome && db.indexes == r.indexes && db.log == old(db.log) + r.events
    {
      var found := FindByCategory(db.indexes, categoryId);
      if found.None? {
        return NoIndex;
      }
      var k := found.value;
      var index := db.indexes[k];
      if !ValidIndexTopic(site.FindTopic(index.indexTopicId), categoryId) {
        db.indexes := DestroyAt(db.indexes, k);
        PublishChangesTo(db, site, index.categoryId);
        return IndexDestroyed;
      }
      var cooked := CookedBody(site, index.indexTopicId);
      if cooked.None? {
        return NoContent;
      }
      var built := ParseAndBuild(site, cooked.value);
      outcome := RebuildIndex(db, site, k, built);
    }

    /** The rebuild inside the transaction, once the index and its cooked text are found. */
    method RebuildIndex(db: Db, site: Site, k: nat, built: seq<BuiltSection>) returns (outcome: Outcome)
      requires k < |db.indexes|
      modifies db
      ensures var r := Rebuild(categoryId, old(db.indexes), k, site, built);
        outcome == r.outcome && db.indexes == r.indexes && db.log == old(db.log) + r.events
    {
      var index := db.indexes[k];
      var stored, ok := CreateSections(categoryId, built);
      if !ok {
        return RecordInvalid;
      }
      ghost var log0 := db.log;
      db.indexes := db.indexes[k := index.(sections := stored)];
      db.TouchIndex(index.categoryId);
      PublishChangesTo(db, site, index.categoryId);
      assert db.log == log0 + ([TouchIndex(index.categoryId)] + PublishChanges(site, index.categoryId));
      return Rebuilt;
    }

    /** `DocIndexTopicParser.new(cooked).sections`, then `build_sections`. */
    static method ParseAndBuild(site: Site, cooked: string) returns (built: seq<BuiltSection>)
      ensures built == BuildSections(site, P.ParseIndex(site.parseHtml(cooked)))
    {
      var parser := new P.Parser(site.parseHtml(cooked));
      var raw := parser.ParsedSections();
      built := BuildSections(site, raw);
    }

    /** `publish_changes`. */
    static method PublishChangesTo(db: Db, site: Site, categoryId: int)
      modifies db
      ensures db.indexes == old(db.indexes) && db.log == old(db.log) + PublishChanges(site, categoryId)
    {
      if categoryId !in site.categories {
        return;
      }
      db.ClearSiteCache();
      db.PublishCategory(categoryId);
    }

    /** The transaction: creates every section and its links in order, or reports that a row failed. */
    static method CreateSections(categoryId: int, built: seq<BuiltSection>) returns (stored: seq<SectionRecord>, ok: bool)
      ensures ok == Storable(categoryId, built)
      ensures ok ==> stored == StoredSections(built)
    {
      stored := [];
      var i := 0;
      while i < |built|
        invariant 0 <= i <= |built|
        invariant Storable(categoryId, built[..i])
        invariant stored == StoredSections(built[..i])
      {
        if !SectionSaves(categoryId, built[i], i) {
          return stored, false;
        }
        var links, linksOk := CreateLinks(i, built[i].links);
        if !linksOk {
          return stored, false;
        }
        assert built[..i + 1] == built[..i] + [built[i]];
        stored := stored + [SectionRecord(built[i].text, i, links)];
        i := i + 1;
      }
      assert built[..i] == built;
      return stored, true;
    }

    static method CreateLinks(sectionPosition: int, links: seq<BuiltLink>) returns (stored: seq<LinkRecord>, ok: bool)
      ensures ok == LinksStorable(sectionPosition, links)
      ensures ok ==> stored == StoredLinks(links)
    {
      stored := [];
      var j := 0;
      while j < |links|
        invariant 0 <= j <= |links|
        invariant LinksStorable(sectionPosition, links[..j])
        invariant stored == StoredLinks(links[..j])
      {
        if !LinkSaves(sectionPosition, links[j], j) {
          return stored, false;
        }
        stored := stored + [LinkRecord(Some(links[j].text), Some(links[j].href), links[j].topicId, j)];
        j := j + 1;
      }
      assert links[..j] == links;
      return stored, true;
    }
  }

  // ---------------------------------------------------------------------------
  // What a refresh promises.

  /** A refresh keeps one index per category and per index topic. */
  lemma RefreshKeepsUniqueKeys(categoryId: int, indexes: seq<IndexRecord>, site: Site)
    requires UniqueKeys(indexes)
    ensures UniqueKeys(Refreshed(categoryId, indexes, site).indexes)
  {
    match FindByCategory(indexes, categoryId)
    case None =>
    case Some(k) =>
      if !ValidIndexTopic(site.FindTopic(indexes[k].indexTopicId), categoryId) {
        DestroyAtEffect(indexes, k);
      }
  }

  /** A refresh changes only the index of its category: every other index stays where and as it was, unless that one index is destroyed. */
  lemma RefreshTouchesOnlyItsIndex(categoryId: int, indexes: seq<IndexRecord>, site: Site)
    ensures var r := Refreshed(categoryId, indexes, site);
      r.outcome != IndexDestroyed ==>
        |r.indexes| == |indexes|
        && forall j :: 0 <= j < |indexes| && indexes[j].categoryId != categoryId ==> r.indexes[j] == indexes[j]
    ensures var r := Refreshed(categoryId, indexes, site);
      r.outcome == IndexDestroyed ==>
        forall j :: 0 <= j < |indexes| && indexes[j].categoryId != categoryId ==> indexes[j] in r.indexes
  {
    var r := Refreshed(categoryId, indexes, site);
    match FindByCategory(indexes, categoryId)
    case None =>
    case Some(k) =>
      if r.outcome == IndexDestroyed {
        forall j | 0 <= j < |indexes| && indexes[j].categoryId != categoryId
          ensures indexes[j] in r.indexes
        {
          assert j != k;
          var i := if j < k then j else j - 1;
          assert r.indexes[i] == indexes[j];
        }
      }
  }

  /** A destroyed index leaves its category without one; the index topic did not qualify. */
  lemma RefreshDestroyedSpec(categoryId: int, indexes: seq<IndexRecord>, site: Site)
    requires UniqueKeys(indexes)
    ensures var r := Refreshed(categoryId, indexes, site);
      r.outcome == IndexDestroyed <==>
        FindByCategory(indexes, categoryId).Some?
        && !ValidIndexTopic(site.FindTopic(indexes[FindByCategory(indexes, categoryId).value].indexTopicId), categoryId)
    ensures var r := Refreshed(categoryId, indexes, site);
      r.outcome == IndexDestroyed ==> FindByCategory(r.indexes, categoryId).None? && |r.indexes| == |indexes| - 1
  {
    match FindByCategory(indexes, categoryId)
    case None =>
    case Some(k) =>
      if !ValidIndexTopic(site.FindTopic(indexes[k].indexTopicId), categoryId) {
        DestroyAtEffect(indexes, k);
      }
  }

  /** Refreshing again with nothing changed on the site leaves the indexes as the first refresh left them. */
  lemma RefreshIdempotent(categoryId: int, indexes: seq<IndexRecord>, site: Site)
    requires UniqueKeys(indexes)
    ensures var once := Refreshed(categoryId, indexes, site).indexes;
      Refreshed(categoryId, once, site).indexes == once
  {
    var r := Refreshed(categoryId, indexes, site);
    match FindByCategory(indexes, categoryId)
    case None =>
    case Some(k) =>
      if !ValidIndexTopic(site.FindTopic(indexes[k].indexTopicId), categoryId) {
        DestroyAtEffect(indexes, k);
      } else if r.outcome == Rebuilt {
        FindByCategorySameKeys(indexes, r.indexes, categoryId);
      }
  }

  /** A rebuild is announced: the index is touched, then the category published when it exists. */
  lemma RebuiltEvents(categoryId: int, indexes: seq<IndexRecord>, site: Site)
    ensures var r := Refreshed(categoryId, indexes, site);
      r.outcome == Rebuilt ==>
        r.events == [TouchIndex(categoryId)] + (if categoryId in site.categories then [ClearSiteCache, PublishCategory(categoryId)] else [])
    ensures var r := Refreshed(categoryId, indexes, site);
      r.outcome in {NoIndex, NoContent, RecordInvalid} ==> r.indexes == indexes && r.events == []
  {
  }

  /** The position uniqueness of the rows never fails: a section saves exactly when its title fits. */
  lemma SectionSavesIff(categoryId: int, section: BuiltSection, position: nat)
    ensures SectionSaves(categoryId, section, position) <==> WithinLength(section.text, 255)
  {
    SidebarSectionModel.SectionErrorsEmptyIff(Some(categoryId), Some(position), section.text, Positions(position));
  }

  /** A link saves exactly when its label fits in 255 characters and its href in 2000. */
  lemma LinkSavesIff(sectionPosition: int, link: BuiltLink, position: nat)
    ensures LinkSaves(sectionPosition, link, position) <==>
      WithinLength(Some(link.text), 255) && WithinLength(Some(link.href), 2000)
  {
    SidebarLinkModel.LinkErrorsEmptyIff(Some(sectionPosition), Some(position), Some(link.text), Some(link.href), Positions(position));
  }

  /** The stored rows are numbered in order, so `order(:position)` reads them back as built. */
  lemma StoredInOrder(built: seq<BuiltSection>)
    ensures SortBy(StoredSections(built), SectionPosition) == StoredSections(built)
    ensures forall i :: 0 <= i < |built| ==>
      SortBy(StoredSections(built)[i].links, LinkPosition) == StoredSections(built)[i].links
  {
    SortByOfSorted(StoredSections(built), SectionPosition);
    forall i | 0 <= i < |built|
      ensures SortBy(StoredSections(built)[i].links, LinkPosition) == StoredSections(built)[i].links
    {
      SortByOfSorted(StoredSections(built)[i].links, LinkPosition);
    }
  }

  // ---------------------------------------------------------------------------
  // What build_sections keeps.

  function BuiltHrefs(links: seq<BuiltLink>): seq<string> {
    if links == [] then [] else BuiltHrefs(links[..|links| - 1]) + [links[|links| - 1].href]
  }

  /** The hrefs of the parsed links that are present and not blank, in order. */
  function UsableHrefs(links: seq<P.Link>): seq<string> {
    if links == [] then []
    else
      var h := links[|links| - 1].href;
      UsableHrefs(links[..|links| - 1]) + (if h.Some? && !IsBlank(h.value) then [h.value] else [])
  }

  function AllBuiltLinks(secs: seq<BuiltSection>): seq<BuiltLink> {
    if secs == [] then [] else AllBuiltLinks(secs[..|secs| - 1]) + secs[|secs| - 1].links
  }

  /** A built link's href is usable and its topic id is where the href routes. */
  predicate RoutedLink(site: Site, b: BuiltLink) {
    !IsBlank(b.href) && b.topicId == ExtractTopicIdFromUrl(site.routeFor, b.href)
  }

  lemma {:induction false} BuiltHrefsAppend(a: seq<BuiltLink>, b: seq<BuiltLink>)
    ensures BuiltHrefs(a + b) == BuiltHrefs(a) + BuiltHrefs(b)
    decreases |b|
  {
    if b == [] {
      assert a + b == a;
    } else {
      assert (a + b)[..|a + b| - 1] == a + b[..|b| - 1];
      BuiltHrefsAppend(a, b[..|b| - 1]);
    }
  }

  lemma {:induction false} UsableHrefsAppend(a: seq<P.Link>, b: seq<P.Link>)
    ensures UsableHrefs(a + b) == UsableHrefs(a) + UsableHrefs(b)
    decreases |b|
  {
    if b == [] {
      assert a + b == a;
    } else {
      assert (a + b)[..|a + b| - 1] == a + b[..|b| - 1];
      UsableHrefsAppend(a, b[..|b| - 1]);
    }
  }

  /** The parsed links `build_sections` keeps: those whose href is present and not blank, in order. */
  function UsableLinks(links: seq<P.Link>): seq<P.Link> {
    if links == [] then []
    else
      var last := links[|links| - 1];
      UsableLinks(links[..|links| - 1]) + (if last.href.Some? && !IsBlank(last.href.value) then [last] else [])
  }

  /**
   * `b` is built from the parsed link `src`, with `link[:text].presence || target_topic&.title || href`:
   * the parsed label when it is not blank, else the title of the topic the href routes to
   * when the prefetched topics hold it, else the href.
   */
  predicate BuiltFrom(topics: map<int, Topic>, src: P.Link, b: BuiltLink) {
    && src.href == Some(b.href)
    && (!IsBlank(src.text) ==> b.text == src.text)
    && (IsBlank(src.text) && b.topicId.Some? && b.topicId.value in topics ==> b.text == topics[b.topicId.value].title)
    && (IsBlank(src.text) && !(b.topicId.Some? && b.topicId.value in topics) ==> b.text == b.href)
  }

  /** The j-th built link of a section is built from its j-th usable parsed link. */
  lemma {:induction false} BuildLinksLabels(site: Site, topics: map<int, Topic>, links: seq<P.Link>)
    ensures |BuildLinks(site, topics, links)| == |UsableLinks(links)|
    ensures forall j :: 0 <= j < |BuildLinks(site, topics, links)| ==>
      BuiltFrom(topics, UsableLinks(links)[j], BuildLinks(site, topics, links)[j])
  {
    if links != [] {
      var front, last := links[..|links| - 1], links[|links| - 1];
      BuildLinksLabels(site, topics, front);
      var b := BuildLink(site, topics, last);
      var bs, us := BuildLinks(site, topics, front), UsableLinks(front);
      if b.Some? {
        assert BuildLinks(site, topics, links) == bs + [b.value];
        assert UsableLinks(links) == us + [last];
        assert BuiltFrom(topics, last, b.value);
      } else {
        assert BuildLinks(site, topics, links) == bs;
        assert UsableLinks(links) == us;
      }
    }
  }

  /**
   * One section's built links: exactly the usable hrefs, in order, each with its routed
   * topic id and the label `link[:text].presence || target_topic&.title || href`.
   */
  lemma BuildLinksSpec(site: Site, topics: map<int, Topic>, links: seq<P.Link>)
    ensures BuiltHrefs(BuildLinks(site, topics, links)) == UsableHrefs(links)
    ensures forall j :: 0 <= j < |BuildLinks(site, topics, links)| ==> RoutedLink(site, BuildLinks(site, topics, links)[j])
    ensures |BuildLinks(site, topics, links)| == |UsableLinks(links)|
    ensures forall j :: 0 <= j < |BuildLinks(site, topics, links)| ==>
      BuiltFrom(topics, UsableLinks(links)[j], BuildLinks(site, topics, links)[j])
  {
    BuildLinksRouted(site, topics, links);
    BuildLinksLabels(site, topics, links);
  }

  /** The built hrefs are the usable ones, and each built link carries its routed topic id. */
  lemma {:induction false} BuildLinksRouted(site: Site, topics: map<int, Topic>, links: seq<P.Link>)
    ensures BuiltHrefs(BuildLinks(site, topics, links)) == UsableHrefs(links)
    ensures forall j :: 0 <= j < |BuildLinks(site, topics, links)| ==> RoutedLink(site, BuildLinks(site, topics, links)[j])
  {
    if links != [] {
      var front := links[..|links| - 1];
      BuildLinksRouted(site, topics, front);
      var b := BuildLink(site, topics, links[|links| - 1]);
      if b.Some? {
        assert BuildLinks(site, topics, links) == BuildLinks(site, topics, front) + [b.value];
        BuiltHrefsAppend(BuildLinks(site, topics, front), [b.value]);
      } else {
        assert BuildLinks(site, topics, links) == BuildLinks(site, topics, front);
      }
    }
  }

  lemma BuildSectionListSnoc(site: Site, topics: map<int, Topic>, raw: seq<P.Section>)
    requires raw != []
    ensures var links := BuildLinks(site, topics, raw[|raw| - 1].links);
      BuildSectionList(site, topics, raw) ==
        BuildSectionList(site, topics, raw[..|raw| - 1]) + (if links == [] then [] else [BuiltSection(raw[|raw| - 1].text, links)])
  {
  }

  /**
   * `build_sections` loses no usable link and invents none: the built hrefs are the usable
   * parsed hrefs, in document order.
   */
  lemma {:induction false} BuildSectionListHrefs(site: Site, topics: map<int, Topic>, raw: seq<P.Section>)
    ensures BuiltHrefs(AllBuiltLinks(BuildSectionList(site, topics, raw))) == UsableHrefs(P.AllLinks(raw))
  {
    if raw != [] {
      var front, last := raw[..|raw| - 1], raw[|raw| - 1];
      BuildSectionListHrefs(site, topics, front);
      BuildLinksRouted(site, topics, last.links);
      assert P.AllLinks(raw) == P.AllLinks(front) + last.links;
      UsableHrefsAppend(P.AllLinks(front), last.links);
      BuildSectionListSnoc(site, topics, raw);
      var rest := BuildSectionList(site, topics, front);
      var links := BuildLinks(site, topics, last.links);
      if links != [] {
        var s := BuiltSection(last.text, links);
        assert (rest + [s])[..|rest|] == rest;
        assert AllBuiltLinks(rest + [s]) == AllBuiltLinks(rest) + links;
        BuiltHrefsAppend(AllBuiltLinks(rest), links);
      } else {
        assert BuildSectionList(site, topics, raw) == rest + [] == rest;
        assert UsableHrefs(last.links) == BuiltHrefs(links) == [];
        assert UsableHrefs(P.AllLinks(front)) + [] == UsableHrefs(P.AllLinks(front));
      }
    }
  }

  /** Every built section has links, and every built link carries the topic id its href routes to. */
  lemma {:induction false} BuildSectionListRouted(site: Site, topics: map<int, Topic>, raw: seq<P.Section>)
    ensures forall i :: 0 <= i < |BuildSectionList(site, topics, raw)| ==> BuildSectionList(site, topics, raw)[i].links != []
    ensures forall i, j :: 0 <= i < |BuildSectionList(site, topics, raw)| && 0 <= j < |BuildSectionList(site, topics, raw)[i].links| ==>
      RoutedLink(site, BuildSectionList(site, topics, raw)[i].links[j])
  {
    if raw != [] {
      var front, last := raw[..|raw| - 1], raw[|raw| - 1];
      BuildSectionListRouted(site, topics, front);
      BuildLinksRouted(site, topics, last.links);
      BuildSectionListSnoc(site, topics, raw);
    }
  }

  /** Two topic maps that agree on every id the links route to build the same links. */
  ghost predicate AgreeOnRoutedIds(site: Site, a: map<int, Topic>, b: map<int, Topic>, links: seq<P.Link>) {
    forall l :: l in links && HrefTopicId(site, l.href).Some? ==>
      var id := HrefTopicId(site, l.href).value;
      (id in a <==> id in b) && (id in a ==> a[id] == b[id])
  }

  lemma {:induction false} BuildLinksSameTopics(site: Site, a: map<int, Topic>, b: map<int, Topic>, links: seq<P.Link>)
    requires AgreeOnRoutedIds(site, a, b, links)
    ensures BuildLinks(site, a, links) == BuildLinks(site, b, links)
  {
    if links != [] {
      var front := links[..|links| - 1];
      assert forall l :: l in front ==> l in links;
      BuildLinksSameTopics(site, a, b, front);
      assert links[|links| - 1] in links;
    }
  }

  lemma {:induction false} BuildSectionListSameTopics(site: Site, a: map<int, Topic>, b: map<int, Topic>, raw: seq<P.Section>)
    requires AgreeOnRoutedIds(site, a, b, P.AllLinks(raw))
    ensures BuildSectionList(site, a, raw) == BuildSectionList(site, b, raw)
  {
    if raw != [] {
      var front, last := raw[..|raw| - 1], raw[|raw| - 1];
      assert P.AllLinks(raw) == P.AllLinks(front) + last.links;
      BuildSectionListSameTopics(site, a, b, front);
      BuildLinksSameTopics(site, a, b, last.links);
    }
  }

  /** The batch lookup `topics_by_id` answers as a direct lookup of each topic would. */
  lemma PrefetchIsTransparent(site: Site, raw: seq<P.Section>)
    requires raw != []
    ensures BuildSections(site, Some(raw)) == BuildSectionList(site, site.topics, raw)
  {
    var links := P.AllLinks(raw);
    var xs := seq(|links|, i requires 0 <= i < |links| => HrefTopicId(site, links[i].href));
    var ids := CandidateTopicIds(site, raw);
    assert ids == Dedup(Compact(xs));
    var byId := TopicsById(site, ids);
    forall l | l in links && HrefTopicId(site, l.href).Some?
      ensures var id := HrefTopicId(site, l.href).value;
        (id in byId <==> id in site.topics) && (id in byId ==> byId[id] == site.topics[id])
    {
      var id := HrefTopicId(site, l.href).value;
      var i :| 0 <= i < |links| && links[i] == l;
      assert xs[i] == Some(id);
      CompactMembers(xs, id);
      assert id in ids;
    }
    BuildSectionListSameTopics(site, byId, site.topics, raw);
  }
}
