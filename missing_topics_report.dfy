/**
 * The "missing topics" admin report (lib/doc_categories/reports/missing_topics_report.rb):
 * for each selected doc category, its visible topics that its index does not list.
 *
 * `run` chooses the categories from the report's filters, then sets the labels and
 * the data. The host's inputs (the doc category ids, the filter values, the subcategory
 * lookup and the topic listing) come in as a `ReportEnv`.
 */
module MissingTopicsReport {
  import opened Wrappers
  import opened Text
  import opened Host
  import opened Store
  import opened Collections
  import IndexModel

  /** A choice of the category list filter. */
  datatype Choice = Choice(id: int, name: string)

  /** A filter the report offers. */
  datatype ReportFilter =
    | ListFilter(name: string, choices: seq<Choice>, selected: int)
    | BoolFilter(name: string, checked: bool)

  /** A column of the report's table. */
  datatype Label = TopicLabel | ItemLabel | ReasonLabel | IndexCategoryLabel

  /** The categories to report on and whether topics of their subcategories count. */
  datatype Filters = Filters(categories: seq<Category>, includeTopicFromSubcategories: bool)

  /** How a step of the report ends: it stops early, raises, or goes on with a value. */
  datatype Step<T> = Stop | Raise | Go(value: T)

  /** `set_filters`' result: the filters it added to the report, then how it ended. */
  datatype FilterStep = FilterStep(added: seq<ReportFilter>, step: Step<Filters>)

  datatype ReportEnv = ReportEnv(
    docCategoryIds: seq<int>,                 // Category.doc_category_ids
    docCategoryFilter: Scalar,                // filters[:doc_category]
    subcategoryFilter: Scalar,                // filters[:include_topic_from_subcategories]
    allName: string,                          // the "all categories" choice's name
    subcategoryIds: int -> seq<int>,          // Category.subcategory_ids
    categoryTopicIds: (int, bool) -> seq<int>) // list_category_topic_ids, with or without subcategories

  /** A row of the report. */
  datatype MissingRow = MissingRow(id: int, title: string, indexCategoryId: int, indexCategoryName: string, indexCategoryUrl: string)

  const AllCategoriesId := -1

  /** `ActiveRecord::Type::Boolean.new.cast`, read through `!!`: nil, "" and the false spellings are false. */
  predicate BoolCast(v: Scalar) {
    match v
    case Nil => false
    case Int(i) => i != 0
    case Str(s) => s != "" && s !in {"0", "f", "F", "false", "FALSE", "off", "OFF"}
  }

  /** Every category is stored under its own id. */
  ghost predicate CategoryKeysMatch(site: Site) {
    forall k :: k in site.categories ==> site.categories[k].id == k
  }

  /** `Category.where(id: ids)`: each existing category once, in the order of the ids. */
  function CategoriesWhere(ids: seq<int>, site: Site): (r: seq<Category>)
    ensures |r| <= |ids|
    ensures forall c :: c in r <==> exists i :: 0 <= i < |ids| && ids[i] in site.categories && site.categories[ids[i]] == c
  {
    if ids == [] then []
    else
      var front := ids[..|ids| - 1];
      var id := ids[|ids| - 1];
      var rest := CategoriesWhere(front, site);
      assert forall c :: c in rest ==> exists i :: 0 <= i < |front| && front[i] in site.categories && site.categories[front[i]] == c;
      rest + (if id in site.categories && id !in front then [site.categories[id]] else [])
  }

  /** With every category under its own id, `Category.where` gives no category twice. */
  lemma {:induction false} CategoriesWhereDistinct(ids: seq<int>, site: Site)
    requires CategoryKeysMatch(site)
    ensures forall i, j :: 0 <= i < j < |CategoriesWhere(ids, site)| ==> CategoriesWhere(ids, site)[i].id != CategoriesWhere(ids, site)[j].id
  {
    if ids != [] {
      var front, id := ids[..|ids| - 1], ids[|ids| - 1];
      CategoriesWhereDistinct(front, site);
      var rest := CategoriesWhere(front, site);
      forall k | 0 <= k < |rest|
        ensures rest[k].id in front
      {
        assert rest[k] in rest;
        var i :| 0 <= i < |front| && front[i] in site.categories && site.categories[front[i]] == rest[k];
        assert site.categories[front[i]].id == front[i];
      }
      if id in site.categories && id !in front {
        var r := CategoriesWhere(ids, site);
        assert r == rest + [site.categories[id]];
        assert site.categories[id].id == id;
      } else {
        assert CategoriesWhere(ids, site) == rest;
      }
    }
  }

  /** The categories of a list with the given id, in order. */
  function WithId(categories: seq<Category>, id: int): (r: seq<Category>)
    ensures forall c :: c in r <==> c in categories && c.id == id
    ensures r == [] <==> forall c :: c in categories ==> c.id != id
  {
    if categories == [] then []
    else
      var front := categories[..|categories| - 1];
      var c := categories[|categories| - 1];
      assert forall x :: x in categories <==> x in front || x == c;
      WithId(front, id) + (if c.id == id then [c] else [])
  }

  /** The category filter's choices: one per category, behind an "all" choice when there are several. */
  function CategoryChoices(categories: seq<Category>, allName: string): (r: seq<Choice>)
  {
    var choices := seq(|categories|, i requires 0 <= i < |categories| => Choice(categories[i].id, categories[i].name));
    if |choices| > 1 then [Choice(AllCategoriesId, allName)] + choices else choices
  }

  /** Some selected category has subcategories. */
  predicate AnyWithSubcategories(categories: seq<Category>, subcategoryIds: int -> seq<int>) {
    exists c :: c in categories && subcategoryIds(c.id) != []
  }

  /** `set_filters`. */
  function SetFilters(env: ReportEnv, site: Site): FilterStep {
    if env.docCategoryIds == [] then FilterStep([], Stop)
    else
      var categories := CategoriesWhere(env.docCategoryIds, site);
      var choices := CategoryChoices(categories, env.allName);
      if ScalarBlank(env.docCategoryFilter) && choices == [] then FilterStep([], Raise)
      else
        var categoryId := if !ScalarBlank(env.docCategoryFilter) then ScalarToI(env.docCategoryFilter) else choices[0].id;
        var added := [ListFilter("doc_category", choices, categoryId)];
        var selected := if categoryId != AllCategoriesId then WithId(categories, categoryId) else categories;
        if selected == [] then FilterStep(added, Stop)
        else if AnyWithSubcategories(selected, env.subcategoryIds) then
          var withSubcategories := BoolCast(env.subcategoryFilter);
          FilterStep(added + [BoolFilter("include_topic_from_subcategories", withSubcategories)], Go(Filters(selected, withSubcategories)))
        else FilterStep(added, Go(Filters(selected, false)))
  }

  /** `set_labels`. */
  function Labels(filters: Filters): seq<Label> {
    [TopicLabel] + (if |filters.categories| > 1 then [IndexCategoryLabel] else [])
  }

  /** The report's link to a category. */
  function CategoryUrl(id: int): string {
    "/c/" + IntToDecimal(id)
  }

  /** `index&.valid_sidebar_topic_ids || []`. */
  function IndexedTopicIds(category: Category, indexes: seq<IndexRecord>, site: Site): seq<int> {
    match FindByCategory(indexes, category.id)
    case Some(k) => IndexModel.ValidSidebarTopicIds(indexes[k], site)
    case None => []
  }

  /** `existing - indexed - [index_topic_id]`. */
  function MissingTopicIds(existing: seq<int>, indexed: seq<int>, indexTopicId: Option<int>): seq<int> {
    Without(Without(existing, indexed), Compact([indexTopicId]))
  }

  /** `Topic.where(id: ids, visible: true).pluck(:id, :title)`, as rows for the category. */
  function VisibleRows(ids: seq<int>, category: Category, site: Site): seq<MissingRow> {
    if ids == [] then []
    else
      var front := ids[..|ids| - 1];
      var id := ids[|ids| - 1];
      VisibleRows(front, category, site)
      + (if id in site.topics && site.topics[id].visible && id !in front
         then [MissingRow(id, site.topics[id].title, category.id, category.name, CategoryUrl(category.id))]
         else [])
  }

  /** One category's rows. */
  function CategoryRows(category: Category, includeSubcategories: bool, env: ReportEnv, indexes: seq<IndexRecord>, site: Site): seq<MissingRow> {
    var existing := env.categoryTopicIds(category.id, includeSubcategories);
    VisibleRows(MissingTopicIds(existing, IndexedTopicIds(category, indexes, site), category.docIndexTopicId), category, site)
  }

  /** `set_data`: every selected category's rows, category by category. */
  function MissingData(categories: seq<Category>, includeSubcategories: bool, env: ReportEnv, indexes: seq<IndexRecord>, site: Site): seq<MissingRow> {
    if categories == [] then []
    else
      MissingData(categories[..|categories| - 1], includeSubcategories, env, indexes, site)
      + CategoryRows(categories[|categories| - 1], includeSubcategories, env, indexes, site)
  }

  /** The report object: the filters it offers, its labels and its data. */
  class Report {
    var filters: seq<ReportFilter>
    var labels: seq<Label>
    var data: seq<MissingRow>

    /** `initialize`: a table report without date filtering, with no data yet. */
    constructor ()
      ensures filters == [] && labels == [] && data == []
    {
      filters := [];
      labels := [];
      data := [];
    }

    /** `run`: `raised` says that `set_filters` raised and nothing after it ran. */
    method Run(env: ReportEnv, indexes: seq<IndexRecord>, site: Site) returns (raised: bool)
      modifies this
      ensures var f := SetFilters(env, site);
        && raised == f.step.Raise?
        && filters == old(filters) + f.added
        && labels == (if f.step.Go? then Labels(f.step.value) else old(labels))
        && data == (if f.step.Go? then MissingData(f.step.value.categories, f.step.value.includeTopicFromSubcategories, env, indexes, site) else old(data))
    {
      var f := SetFilters(env, site);
      filters := filters + f.added;
      raised := f.step.Raise?;
      if !f.step.Go? {
        return;
      }
      labels := Labels(f.step.value);
      SetData(f.step.value, env, indexes, site);
    }

    /** `set_data`: the rows are gathered category by category, then stored. */
    method SetData(selection: Filters, env: ReportEnv, indexes: seq<IndexRecord>, site: Site)
      modifies this
      ensures filters == old(filters) && labels == old(labels)
      ensures data == MissingData(selection.categories, selection.includeTopicFromSubcategories, env, indexes, site)
    {
      var rows := GatherRows(selection.categories, selection.includeTopicFromSubcategories, env, indexes, site);
      data := rows;
    }
  }

  /** The loop of `set_data`: each category's rows appended in turn. */
  method GatherRows(categories: seq<Category>, inc: bool, env: ReportEnv, indexes: seq<IndexRecord>, site: Site)
    returns (rows: seq<MissingRow>)
    ensures rows == MissingData(categories, inc, env, indexes, site)
  {
    rows := [];
    var i := 0;
    while i < |categories|
      invariant 0 <= i <= |categories|
      invariant rows == MissingData(categories[..i], inc, env, indexes, site)
    {
      MissingDataSnoc(categories, i, inc, env, indexes, site);
      rows := rows + CategoryRows(categories[i], inc, env, indexes, site);
      i := i + 1;
    }
    assert categories[..i] == categories;
  }

  /** The rows of one more category follow those gathered so far. */
  lemma MissingDataSnoc(categories: seq<Category>, i: nat, inc: bool, env: ReportEnv, indexes: seq<IndexRecord>, site: Site)
    requires i < |categories|
    ensures MissingData(categories[..i + 1], inc, env, indexes, site)
      == MissingData(categories[..i], inc, env, indexes, site) + CategoryRows(categories[i], inc, env, indexes, site)
  {
    assert categories[..i + 1][..i] == categories[..i];
  }

  // ---------------------------------------------------------------------------
  // What the report promises.

  lemma {:induction false} VisibleRowsSpec(ids: seq<int>, category: Category, site: Site)
    ensures var rows := VisibleRows(ids, category, site);
      forall r :: r in rows ==>
        && r.id in ids && r.id in site.topics && site.topics[r.id].visible
        && r == MissingRow(r.id, site.topics[r.id].title, category.id, category.name, CategoryUrl(category.id))
    ensures var rows := VisibleRows(ids, category, site);
      forall id :: id in ids && id in site.topics && site.topics[id].visible ==> exists r :: r in rows && r.id == id
    ensures var rows := VisibleRows(ids, category, site);
      forall i, j :: 0 <= i < j < |rows| ==> rows[i].id != rows[j].id
  {
    if ids != [] {
      var front := ids[..|ids| - 1];
      VisibleRowsSpec(front, category, site);
      assert forall x :: x in ids <==> x in front || x == ids[|ids| - 1];
    }
  }

  /**
   * A topic is reported for a category exactly when the category lists it, it is visible,
   * the index does not link it and it is not the index topic; each row carries the
   * category's id, name and URL, and no topic is reported twice for the category.
   */
  lemma CategoryRowsSpec(category: Category, includeSubcategories: bool, env: ReportEnv, indexes: seq<IndexRecord>, site: Site, id: int)
    ensures var rows := CategoryRows(category, includeSubcategories, env, indexes, site);
      (exists r :: r in rows && r.id == id) <==>
        id in env.categoryTopicIds(category.id, includeSubcategories)
        && id !in IndexedTopicIds(category, indexes, site)
        && category.docIndexTopicId != Some(id)
        && id in site.topics && site.topics[id].visible
    ensures var rows := CategoryRows(category, includeSubcategories, env, indexes, site);
      forall r :: r in rows ==>
        && r.indexCategoryId == category.id && r.indexCategoryName == category.name
        && r.indexCategoryUrl == "/c/" + IntToDecimal(category.id) && r.id in site.topics && r.title == site.topics[r.id].title
    ensures var rows := CategoryRows(category, includeSubcategories, env, indexes, site);
      forall i, j :: 0 <= i < j < |rows| ==> rows[i].id != rows[j].id
  {
    var existing := env.categoryTopicIds(category.id, includeSubcategories);
    var indexed := IndexedTopicIds(category, indexes, site);
    var ids := MissingTopicIds(existing, indexed, category.docIndexTopicId);
    VisibleRowsSpec(ids, category, site);
    WithoutMembers(existing, indexed, id);
    WithoutMembers(Without(existing, indexed), Compact([category.docIndexTopicId]), id);
    CompactMembers([category.docIndexTopicId], id);
  }

  /** Without doc categories the report stops at once: no filter, and the data stays empty. */
  lemma NoDocCategoriesNoData(env: ReportEnv, site: Site)
    requires env.docCategoryIds == []
    ensures SetFilters(env, site) == FilterStep([], Stop)
  {
  }

  /** The "all" choice, with id -1, leads the choices exactly when there are several doc categories. */
  lemma AllChoiceOnlyForSeveral(categories: seq<Category>, allName: string)
    ensures var cs := CategoryChoices(categories, allName);
      (|categories| > 1 <==> |cs| > 0 && cs[0] == Choice(AllCategoriesId, allName) && |cs| == |categories| + 1)
      && (|categories| <= 1 ==> |cs| == |categories| && forall i :: 0 <= i < |cs| ==> cs[i].id == categories[i].id)
  {
  }

  /**
   * When the report goes on, the selection is every doc category for the "all" id and
   * otherwise exactly the doc categories with the chosen id: the filter's `to_i`, or the
   * first choice's id when the filter is blank.
   */
  lemma SelectionSpec(env: ReportEnv, site: Site)
    requires SetFilters(env, site).step.Go?
    ensures var categories := CategoriesWhere(env.docCategoryIds, site);
      var chosen := if !ScalarBlank(env.docCategoryFilter) then ScalarToI(env.docCategoryFilter)
                    else CategoryChoices(categories, env.allName)[0].id;
      var selected := SetFilters(env, site).step.value.categories;
      selected != []
      && (chosen == AllCategoriesId ==> selected == categories)
      && (chosen != AllCategoriesId ==> forall c :: c in selected <==> c in categories && c.id == chosen)
  {
  }

  /**
   * The subcategory toggle is offered exactly when some selected category has
   * subcategories, and then the selection takes the cast filter value; otherwise
   * subcategory topics never count.
   */
  lemma SubcategoryToggleSpec(env: ReportEnv, site: Site)
    requires SetFilters(env, site).step.Go?
    ensures var f := SetFilters(env, site);
      (exists i :: 0 <= i < |f.added| && f.added[i].BoolFilter?) <==> AnyWithSubcategories(f.step.value.categories, env.subcategoryIds)
    ensures var f := SetFilters(env, site);
      f.step.value.includeTopicFromSubcategories == (AnyWithSubcategories(f.step.value.categories, env.subcategoryIds) && BoolCast(env.subcategoryFilter))
  {
    var f := SetFilters(env, site);
    if AnyWithSubcategories(f.step.value.categories, env.subcategoryIds) {
      assert f.added[1].BoolFilter?;
    } else {
      assert |f.added| == 1 && f.added[0].ListFilter?;
    }
  }

  /** A chosen id no doc category has leaves the report without data. */
  lemma UnknownCategoryStops(env: ReportEnv, site: Site)
    requires env.docCategoryIds != [] && !ScalarBlank(env.docCategoryFilter)
    requires ScalarToI(env.docCategoryFilter) != AllCategoriesId
    requires forall c :: c in CategoriesWhere(env.docCategoryIds, site) ==> c.id != ScalarToI(env.docCategoryFilter)
    ensures SetFilters(env, site).step == Stop
  {
    var categories := CategoriesWhere(env.docCategoryIds, site);
    assert SetFilters(env, site).added == [ListFilter("doc_category", CategoryChoices(categories, env.allName), ScalarToI(env.docCategoryFilter))];
  }

  /** The filter's false spellings, nil and "" read as false; "true" and "1" as true. */
  lemma BoolCastExamples()
    ensures !BoolCast(Nil) && !BoolCast(Str("")) && !BoolCast(Str("false")) && !BoolCast(Str("0")) && !BoolCast(Str("off"))
    ensures BoolCast(Str("true")) && BoolCast(Str("1"))
  {
  }
}
