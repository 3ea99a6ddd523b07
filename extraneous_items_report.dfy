/**
 * The "extraneous items" admin report (lib/doc_categories/reports/extraneous_items_report.rb):
 * for each selected doc category, the links of its index topic that do not lead to one of
 * the category's visible topics, each with the reason.
 *
 * It shares the missing-topics report's filters and `run`; its labels and data differ.
 * The links are read again from the index topic's first post, not from the stored index.
 */
module ExtraneousItemsReport {
  import opened Wrappers
  import opened Text
  import opened Host
  import opened Collections
  import opened Url
  import P = DocIndexTopicParser
  import M = MissingTopicsReport

  /** Why a link is reported, in the order the reasons are tried. */
  datatype Reason = TopicNotVisible | OtherCategory | NotATopic | External

  /** A row of the report. */
  datatype ItemRow = ItemRow(title: string, href: Option<string>, reason: Reason,
                             indexCategoryId: int, indexCategoryName: string, indexCategoryUrl: string)

  /** `set_labels`: the item and reason columns, and the index category when several categories are selected. */
  function Labels(filters: M.Filters): seq<M.Label> {
    [M.ItemLabel, M.ReasonLabel] + (if |filters.categories| > 1 then [M.IndexCategoryLabel] else [])
  }

  /** `Topic.where(id: ids, visible: false).pluck(:id)`: each invisible topic among the ids once. */
  function InvisibleTopicIds(ids: seq<int>, site: Site): (r: seq<int>)
    ensures forall id :: id in r <==> id in ids && id in site.topics && !site.topics[id].visible
  {
    if ids == [] then []
    else
      var front := ids[..|ids| - 1];
      var id := ids[|ids| - 1];
      assert forall x :: x in ids <==> x in front || x == id;
      InvisibleTopicIds(front, site) + (if id in site.topics && !site.topics[id].visible && id !in front then [id] else [])
  }

  /** `Discourse.route_for(href) unless topic_id`: asked only for a link that names no topic. */
  function LinkRoute(link: P.Link, site: Site): Option<Route> {
    if HrefTopicId(site, link.href).Some? || link.href.None? then None else site.routeFor(link.href.value)
  }

  /** The reason chosen for a reported link. */
  function ReasonFor(topicId: Option<int>, route: Option<Route>, invisible: seq<int>): Reason {
    if topicId.Some? then (if topicId.value in invisible then TopicNotVisible else OtherCategory)
    else if route.Some? then NotATopic
    else External
  }

  /** One link's row, or none when it leads to a visible topic listed in the category. */
  function LinkRow(link: P.Link, existing: seq<int>, invisible: seq<int>, category: Category, site: Site): Option<ItemRow> {
    var topicId := HrefTopicId(site, link.href);
    if topicId.Some? && topicId.value in existing then None
    else
      Some(ItemRow(link.text, link.href, ReasonFor(topicId, LinkRoute(link, site), invisible),
                   category.id, category.name, M.CategoryUrl(category.id)))
  }

  /** The `filter_map` over the links. */
  function LinkRows(links: seq<P.Link>, existing: seq<int>, invisible: seq<int>, category: Category, site: Site): seq<ItemRow> {
    if links == [] then []
    else
      var row := LinkRow(links[|links| - 1], existing, invisible, category, site);
      LinkRows(links[..|links| - 1], existing, invisible, category, site) + (if row.Some? then [row.value] else [])
  }

  /**
   * One category's rows: nothing without an index topic or without a linked section, and
   * the report raises when the index topic has no first post.
   */
  function CategoryItems(category: Category, includeSubcategories: bool, env: M.ReportEnv, site: Site): M.Step<seq<ItemRow>> {
    var listed := env.categoryTopicIds(category.id, includeSubcategories);
    var invisible := InvisibleTopicIds(listed, site);
    var existing := Without(listed, invisible);
    if category.docIndexTopicId.None? || category.docIndexTopicId.value !in site.topics then M.Go([])
    else
      match site.FirstPost(site.topics[category.docIndexTopicId.value].id)
      case None => M.Raise
      case Some(post) =>
        match P.ParseCooked(site.parseHtml, post.cooked)
        case None => M.Go([])
        case Some(sections) => M.Go(Dedup(LinkRows(P.AllLinks(sections), existing, invisible, category, site)))
  }

  /** `set_data`: every selected category's rows in turn; the first category that raises ends it. */
  function ItemsData(categories: seq<Category>, includeSubcategories: bool, env: M.ReportEnv, site: Site): M.Step<seq<ItemRow>> {
    if categories == [] then M.Go([])
    else
      match ItemsData(categories[..|categories| - 1], includeSubcategories, env, site)
      case Go(rows) =>
        (match CategoryItems(categories[|categories| - 1], includeSubcategories, env, site)
         case Go(more) => M.Go(rows + more)
         case _ => M.Raise)
      case _ => M.Raise
  }

  /** The report object, as the missing-topics report's but with its own labels and rows. */
  class Report {
    var filters: seq<M.ReportFilter>
    var labels: seq<M.Label>
    var data: seq<ItemRow>

    constructor ()
      ensures filters == [] && labels == [] && data == []
    {
      filters := [];
      labels := [];
      data := [];
    }

    /** `run`: `raised` says that `set_filters` or `set_data` raised; the data is stored only when neither did. */
    method Run(env: M.ReportEnv, site: Site) returns (raised: bool)
      modifies this
      ensures var f := M.SetFilters(env, site);
        && filters == old(filters) + f.added
        && labels == (if f.step.Go? then Labels(f.step.value) else old(labels))
        && (f.step.Go? && ItemsData(f.step.value.categories, f.step.value.includeTopicFromSubcategories, env, site).Go?
            ==> !raised && data == ItemsData(f.step.value.categories, f.step.value.includeTopicFromSubcategories, env, site).value)
        && (!(f.step.Go? && ItemsData(f.step.value.categories, f.step.value.includeTopicFromSubcategories, env, site).Go?)
            ==> data == old(data) && raised == (f.step.Raise? || f.step.Go?))
    {
      var f := M.SetFilters(env, site);
      filters := filters + f.added;
      if !f.step.Go? {
        raised := f.step.Raise?;
        return;
      }
      labels := Labels(f.step.value);
      raised := SetData(f.step.value, env, site);
    }

    /** `set_data`: the rows are gathered category by category and stored once all are in. */
    method SetData(selection: M.Filters, env: M.ReportEnv, site: Site) returns (raised: bool)
      modifies this
      ensures filters == old(filters) && labels == old(labels)
      ensures var d := ItemsData(selection.categories, selection.includeTopicFromSubcategories, env, site);
        raised == !d.Go? && data == (if d.Go? then d.value else old(data))
    {
      var rows;
      raised, rows := GatherItems(selection.categories, selection.includeTopicFromSubcategories, env, site);
      if !raised {
        data := rows;
      }
    }
  }

  /** The loop of `set_data`: each category's rows appended in turn, stopping at the first that raises. */
  method GatherItems(categories: seq<Category>, inc: bool, env: M.ReportEnv, site: Site) returns (raised: bool, rows: seq<ItemRow>)
    ensures var d := ItemsData(categories, inc, env, site);
      raised == !d.Go? && (d.Go? ==> rows == d.value)
  {
    rows := [];
    var i := 0;
    while i < |categories|
      invariant 0 <= i <= |categories|
      invariant ItemsData(categories[..i], inc, env, site) == M.Go(rows)
    {
      assert categories[..i + 1][..i] == categories[..i];
      var items := CategoryItems(categories[i], inc, env, site);
      if !items.Go? {
        ItemsDataRaisesOnward(categories, i + 1, inc, env, site);
        return true, rows;
      }
      rows := rows + items.value;
      i := i + 1;
    }
    assert categories[..i] == categories;
    return false, rows;
  }

  lemma {:induction false} ItemsDataRaisesOnward(categories: seq<Category>, k: nat, includeSubcategories: bool, env: M.ReportEnv, site: Site)
    requires 0 < k <= |categories|
    requires !ItemsData(categories[..k], includeSubcategories, env, site).Go?
    ensures !ItemsData(categories, includeSubcategories, env, site).Go?
    decreases |categories| - k
  {
    if k < |categories| {
      assert categories[..k + 1][..k] == categories[..k];
      ItemsDataRaisesOnward(categories, k + 1, includeSubcategories, env, site);
    } else {
      assert categories[..k] == categories;
    }
  }

  /**
   * The reason is `topic_not_visible` for an invisible listed topic, `other_category` for
   * any other topic, `not_a_topic` for a recognised route, and `external` otherwise.
   */
  lemma ReasonOrder(topicId: Option<int>, route: Option<Route>, invisible: seq<int>)
    ensures ReasonFor(topicId, route, invisible) == TopicNotVisible <==> topicId.Some? && topicId.value in invisible
    ensures ReasonFor(topicId, route, invisible) == OtherCategory <==> topicId.Some? && topicId.value !in invisible
    ensures ReasonFor(topicId, route, invisible) == NotATopic <==> topicId.None? && route.Some?
    ensures ReasonFor(topicId, route, invisible) == External <==> topicId.None? && route.None?
  {
  }

  /**
   * A link is left out exactly when it leads to a visible listed topic; otherwise its row
   * is titled by its text, keeps its href and carries the category.
   */
  lemma LinkRowSpec(link: P.Link, listed: seq<int>, category: Category, site: Site)
    ensures var invisible := InvisibleTopicIds(listed, site);
      var row := LinkRow(link, Without(listed, invisible), invisible, category, site);
      row.None? <==>
        (HrefTopicId(site, link.href).Some? && HrefTopicId(site, link.href).value in listed
         && !(HrefTopicId(site, link.href).value in site.topics && !site.topics[HrefTopicId(site, link.href).value].visible))
    ensures var invisible := InvisibleTopicIds(listed, site);
      var row := LinkRow(link, Without(listed, invisible), invisible, category, site);
      row.Some? ==>
        && row.value.title == link.text && row.value.href == link.href
        && row.value.indexCategoryId == category.id && row.value.indexCategoryUrl == "/c/" + IntToDecimal(category.id)
  {
    var invisible := InvisibleTopicIds(listed, site);
    var topicId := HrefTopicId(site, link.href);
    if topicId.Some? {
      WithoutMembers(listed, invisible, topicId.value);
    }
  }

  /** Every row comes from one of the links, and every link not left out has its row. */
  lemma {:induction false} LinkRowsSpec(links: seq<P.Link>, existing: seq<int>, invisible: seq<int>, category: Category, site: Site, r: ItemRow)
    ensures r in LinkRows(links, existing, invisible, category, site) <==>
      exists l :: l in links && LinkRow(l, existing, invisible, category, site) == Some(r)
  {
    if links != [] {
      var front := links[..|links| - 1];
      var last := links[|links| - 1];
      LinkRowsSpec(front, existing, invisible, category, site, r);
      assert forall l :: l in links <==> l in front || l == last;
    }
  }

  /**
   * A category without an index topic contributes nothing, one whose index topic has no
   * first post makes the report raise, and no row is repeated.
   */
  lemma CategoryItemsSpec(category: Category, includeSubcategories: bool, env: M.ReportEnv, site: Site)
    ensures category.docIndexTopicId.None? ==> CategoryItems(category, includeSubcategories, env, site) == M.Go([])
    ensures (category.docIndexTopicId.Some? && category.docIndexTopicId.value in site.topics
             && site.topics[category.docIndexTopicId.value].id !in site.firstPosts) ==>
      CategoryItems(category, includeSubcategories, env, site) == M.Raise
    ensures CategoryItems(category, includeSubcategories, env, site).Go? ==>
      NoDuplicates(CategoryItems(category, includeSubcategories, env, site).value)
  {
  }

  /**
   * When the index topic's first post parses to linked sections, the rows are the rows of
   * those links, once each: the stored index plays no part.
   */
  lemma CategoryItemsFromIndexLinks(category: Category, includeSubcategories: bool, env: M.ReportEnv, site: Site,
                                    post: Post, sections: seq<P.Section>)
    requires category.docIndexTopicId.Some? && category.docIndexTopicId.value in site.topics
    requires site.FirstPost(site.topics[category.docIndexTopicId.value].id) == Some(post)
    requires P.ParseCooked(site.parseHtml, post.cooked) == Some(sections)
    ensures var listed := env.categoryTopicIds(category.id, includeSubcategories);
      var invisible := InvisibleTopicIds(listed, site);
      CategoryItems(category, includeSubcategories, env, site)
        == M.Go(Dedup(LinkRows(P.AllLinks(sections), Without(listed, invisible), invisible, category, site)))
  {
  }
}
