/**
 * The client's docs-sidebar service (assets/javascripts/discourse/services/doc-category-sidebar.js).
 *
 * The service remembers which category's index the docs sidebar shows (`_indexCategoryId`)
 * and that index (`_indexConfig`). On a route change, and on a "/categories" message while
 * the sidebar is hidden, it looks for the nearest category, from the active one up its
 * parents, that carries a serialized index, and shows or hides the sidebar accordingly.
 * While the sidebar is shown, a message replaces the index of the shown category or,
 * when that category was deleted, hides the sidebar.
 *
 * The panel shown by the host's sidebar state is the `panel` field. The category object
 * graph is given as a lineage: the active category followed by its ancestors.
 */
module DocCategorySidebar {
  import opened Wrappers
  import opened IndexModel
  import SidebarStructureParser

  const AdminPanel: string := "admin"
  const MainPanel: string := "main"
  const DocsPanel: string := SidebarStructureParser.SidebarDocsPanel

  /** The serialized `doc_category_index`. */
  type IndexConfig = seq<StructureSection>

  /** A category as the client holds it. */
  datatype ClientCategory = ClientCategory(
    id: int,
    slug: string,
    docCategoryIndex: Option<IndexConfig>,   // doc_category_index
    indexTopicField: Option<int>)            // custom_fields.doc_category_index_topic, an integer field

  /** The route's category and its parent route's category, each as a lineage; [] when absent. */
  datatype RouteState = RouteState(category: seq<ClientCategory>, parentCategory: seq<ClientCategory>)

  /** An entry of a "/categories" message. */
  datatype MessageCategory = MessageCategory(id: int, docCategoryIndex: Option<IndexConfig>)

  /** A "/categories" message: the changed categories and the ids of deleted ones, each possibly absent. */
  datatype Message = Message(categories: Option<seq<MessageCategory>>, deletedCategories: Option<seq<int>>)

  /** What `#findIndexForActiveCategory` finds. */
  datatype Found = Found(categoryId: int, indexConfig: IndexConfig)

  /** The service's fields and the sidebar's current panel. */
  datatype SidebarState = SidebarState(panel: string, indexCategoryId: Option<int>, indexConfig: Option<IndexConfig>)

  /** `activeCategory`: nothing under the admin panel, else the route's category or its parent route's. */
  function ActiveCategory(panel: string, route: RouteState): seq<ClientCategory> {
    if panel == AdminPanel then []
    else if route.category != [] then route.category
    else route.parentCategory
  }

  /** `#findIndexForActiveCategory`: the nearest category of the lineage with an index. */
  function FindIndex(lineage: seq<ClientCategory>): Option<Found> {
    if lineage == [] then None
    else if lineage[0].docCategoryIndex.Some? then Some(Found(lineage[0].id, lineage[0].docCategoryIndex.value))
    else FindIndex(lineage[1..])
  }

  /** `sectionsConfig`: the index shown, or an empty list. */
  function SectionsConfig(s: SidebarState): (r: IndexConfig)
    ensures s.indexConfig.Some? ==> r == s.indexConfig.value
    ensures s.indexConfig.None? ==> r == []
  {
    s.indexConfig.GetOr([])
  }

  /** `hideDocsSidebar`: back to the main panel, only if the docs panel is shown. */
  function Hide(s: SidebarState): SidebarState {
    if s.panel != DocsPanel then s else s.(panel := MainPanel)
  }

  /** `disableDocsSidebar`. */
  function Disable(s: SidebarState): SidebarState {
    Hide(s).(indexCategoryId := None, indexConfig := None)
  }

  /** `#setSidebarContent`: an absent index disables; otherwise it is remembered and shown. */
  function SetSidebarContent(s: SidebarState, categoryId: Option<int>, config: Option<IndexConfig>): SidebarState {
    if config.None? then Disable(s)
    else SidebarState(DocsPanel, categoryId, config)
  }

  /** `#maybeForceDocsSidebar`: disable without an index, update only when the category or the index differs. */
  function MaybeForce(s: SidebarState, active: seq<ClientCategory>): SidebarState {
    match FindIndex(active)
    case None => Disable(s)
    case Some(f) =>
      if s.indexCategoryId != Some(f.categoryId) || s.indexConfig != Some(f.indexConfig)
      then SetSidebarContent(s, Some(f.categoryId), Some(f.indexConfig))
      else s
  }

  /** The message's entry for a category, the first with its id. */
  function MessageEntry(categories: Option<seq<MessageCategory>>, id: Option<int>): Option<MessageCategory> {
    if categories.None? || id.None? then None
    else FirstWithId(categories.value, id.value)
  }

  function FirstWithId(cs: seq<MessageCategory>, id: int): (r: Option<MessageCategory>)
    ensures r.Some? ==> r.value in cs && r.value.id == id
    ensures r.None? ==> forall c :: c in cs ==> c.id != id
  {
    if cs == [] then None else if cs[0].id == id then Some(cs[0]) else FirstWithId(cs[1..], id)
  }

  /** `deleted_categories?.find(id => id === _indexCategoryId)`, read for truthiness: the id is listed and is not 0. */
  predicate DeletedNamed(deleted: Option<seq<int>>, id: Option<int>) {
    deleted.Some? && id.Some? && id.value in deleted.value && id.value != 0
  }

  /** `maybeUpdateIndexContent`. */
  function UpdateIndexContent(s: SidebarState, data: Message, active: seq<ClientCategory>): SidebarState {
    if s.panel != DocsPanel then MaybeForce(s, active)
    else
      var entry := MessageEntry(data.categories, s.indexCategoryId);
      var updated := if entry.Some? then SetSidebarContent(s, s.indexCategoryId, entry.value.docCategoryIndex) else s;
      if DeletedNamed(data.deletedCategories, updated.indexCategoryId) then Disable(updated) else updated
  }

  /** `currentRouteChanged`. */
  function RouteChanged(s: SidebarState, aborted: bool, active: seq<ClientCategory>): SidebarState {
    if aborted then s else MaybeForce(s, active)
  }

  class DocCategorySidebarService {
    /** The sidebar state's current panel key. */
    var panel: string
    var indexCategoryId: Option<int>
    var indexConfig: Option<IndexConfig>

    function State(): SidebarState
      reads this
    {
      SidebarState(panel, indexCategoryId, indexConfig)
    }

    constructor (panel: string)
      ensures State() == SidebarState(panel, None, None)
    {
      this.panel := panel;
      indexCategoryId := None;
      indexConfig := None;
    }

    method HideDocsSidebar()
      modifies this
      ensures State() == Hide(old(State()))
    {
      if panel != DocsPanel {
        return;
      }
      panel := MainPanel;
    }

    method ShowDocsSidebar()
      modifies this
      ensures State() == old(State()).(panel := DocsPanel)
    {
      panel := DocsPanel;
    }

    method DisableDocsSidebar()
      modifies this
      ensures State() == Disable(old(State()))
    {
      HideDocsSidebar();
      indexCategoryId := None;
      indexConfig := None;
    }

    method MaybeUpdateIndexContent(data: Message, route: RouteState)
      modifies this
      ensures State() == UpdateIndexContent(old(State()), data, ActiveCategory(old(panel), route))
    {
      if panel != DocsPanel {
        MaybeForceDocsSidebar(route);
        return;
      }
      var entry := MessageEntry(data.categories, indexCategoryId);
      if entry.Some? {
        SetContent(indexCategoryId, entry.value.docCategoryIndex);
      }
      if DeletedNamed(data.deletedCategories, indexCategoryId) {
        DisableDocsSidebar();
      }
    }

    method CurrentRouteChanged(aborted: bool, route: RouteState)
      modifies this
      ensures State() == RouteChanged(old(State()), aborted, ActiveCategory(old(panel), route))
    {
      if aborted {
        return;
      }
      MaybeForceDocsSidebar(route);
    }

    /** `#findIndexForActiveCategory`: up the parents until a category has an index. */
    static method FindIndexForActiveCategory(lineage: seq<ClientCategory>) returns (found: Option<Found>)
      ensures found == FindIndex(lineage)
    {
      var i := 0;
      while i < |lineage|
        invariant 0 <= i <= |lineage|
        invariant FindIndex(lineage) == FindIndex(lineage[i..])
      {
        if lineage[i].docCategoryIndex.Some? {
          return Some(Found(lineage[i].id, lineage[i].docCategoryIndex.value));
        }
        assert lineage[i..][1..] == lineage[i + 1..];
        i := i + 1;
      }
      return None;
    }

    method MaybeForceDocsSidebar(route: RouteState)
      modifies this
      ensures State() == MaybeForce(old(State()), ActiveCategory(old(panel), route))
    {
      var found := FindIndexForActiveCategory(ActiveCategory(panel, route));
      if found.None? {
        DisableDocsSidebar();
        return;
      }
      if indexCategoryId != Some(found.value.categoryId) || indexConfig != Some(found.value.indexConfig) {
        SetContent(Some(found.value.categoryId), Some(found.value.indexConfig));
      }
    }

    /** `#setSidebarContent`. */
    method SetContent(categoryId: Option<int>, config: Option<IndexConfig>)
      modifies this
      ensures State() == SetSidebarContent(old(State()), categoryId, config)
    {
      if config.None? {
        DisableDocsSidebar();
        return;
      }
      indexCategoryId := categoryId;
      indexConfig := config;
      ShowDocsSidebar();
    }
  }

  // ---------------------------------------------------------------------------
  // What the service promises.

  /** The found index is that of the nearest category in the lineage that has one; none is found when no category has one. */
  lemma {:induction false} FindIndexSpec(lineage: seq<ClientCategory>)
    ensures FindIndex(lineage).None? <==> forall i :: 0 <= i < |lineage| ==> lineage[i].docCategoryIndex.None?
    ensures FindIndex(lineage).Some? ==>
      exists k :: (0 <= k < |lineage|
        && (forall i :: 0 <= i < k ==> lineage[i].docCategoryIndex.None?)
        && lineage[k].docCategoryIndex == Some(FindIndex(lineage).value.indexConfig)
        && lineage[k].id == FindIndex(lineage).value.categoryId)
  {
    if lineage != [] && lineage[0].docCategoryIndex.None? {
      var rest := lineage[1..];
      FindIndexSpec(rest);
      if FindIndex(rest).Some? {
        var k :| 0 <= k < |rest| && (forall i :: 0 <= i < k ==> rest[i].docCategoryIndex.None?)
          && rest[k].docCategoryIndex == Some(FindIndex(rest).value.indexConfig) && rest[k].id == FindIndex(rest).value.categoryId;
        assert lineage[k + 1] == rest[k];
        assert forall i :: 1 <= i < k + 1 ==> lineage[i] == rest[i - 1];
      }
    }
  }

  /** Disabling forgets the category and the index and never leaves the docs panel shown. */
  lemma DisableSpec(s: SidebarState)
    ensures Disable(s).indexCategoryId.None? && Disable(s).indexConfig.None?
    ensures Disable(s).panel != DocsPanel
    ensures s.panel != DocsPanel ==> Disable(s).panel == s.panel
  {
  }

  /** An absent index disables the sidebar; a present one is remembered with its category and shown. */
  lemma SetSidebarContentSpec(s: SidebarState, categoryId: Option<int>, config: Option<IndexConfig>)
    ensures config.None? ==> SetSidebarContent(s, categoryId, config) == Disable(s)
    ensures config.Some? ==> SetSidebarContent(s, categoryId, config) == SidebarState(DocsPanel, categoryId, config)
  {
  }

  /**
   * Without an index up the lineage the sidebar is disabled; with one, the sidebar ends
   * up showing that index for that category, and the state is left alone when it already did.
   */
  lemma MaybeForceSpec(s: SidebarState, active: seq<ClientCategory>)
    ensures FindIndex(active).None? ==> MaybeForce(s, active) == Disable(s)
    ensures FindIndex(active).Some? ==>
      var f := FindIndex(active).value;
      MaybeForce(s, active).indexCategoryId == Some(f.categoryId) && MaybeForce(s, active).indexConfig == Some(f.indexConfig)
    ensures (FindIndex(active).Some? && s.indexCategoryId == Some(FindIndex(active).value.categoryId)
      && s.indexConfig == Some(FindIndex(active).value.indexConfig)) ==> MaybeForce(s, active) == s
  {
  }

  /** Forcing twice is forcing once. */
  lemma MaybeForceIdempotent(s: SidebarState, active: seq<ClientCategory>)
    ensures MaybeForce(MaybeForce(s, active), active) == MaybeForce(s, active)
  {
  }

  /** Under the admin panel no category is active, so the sidebar is disabled. */
  lemma AdminPanelDisables(s: SidebarState, route: RouteState)
    ensures MaybeForce(s, ActiveCategory(AdminPanel, route)) == Disable(s)
  {
  }

  /** The remembered category and index are set and cleared together, and the docs panel is shown only with an index. */
  ghost predicate Coherent(s: SidebarState) {
    (s.indexCategoryId.Some? <==> s.indexConfig.Some?) && (s.panel == DocsPanel ==> s.indexConfig.Some?)
  }

  /** Every handler of the service keeps the state coherent. */
  lemma HandlersKeepCoherence(s: SidebarState, data: Message, aborted: bool, active: seq<ClientCategory>)
    requires Coherent(s)
    ensures Coherent(UpdateIndexContent(s, data, active))
    ensures Coherent(RouteChanged(s, aborted, active))
  {
    if s.panel == DocsPanel {
      var entry := MessageEntry(data.categories, s.indexCategoryId);
      if entry.Some? {
        assert s.indexCategoryId.Some?;
      }
    }
  }

  /**
   * While shown, a message entry for the shown category replaces its index, and a message
   * naming that category among the deleted ones disables the sidebar.
   */
  lemma ShownSidebarFollowsMessages(s: SidebarState, data: Message, active: seq<ClientCategory>)
    requires s.panel == DocsPanel && Coherent(s)
    ensures (MessageEntry(data.categories, s.indexCategoryId).Some?
      && MessageEntry(data.categories, s.indexCategoryId).value.docCategoryIndex.Some?
      && !DeletedNamed(data.deletedCategories, s.indexCategoryId)) ==>
      UpdateIndexContent(s, data, active)
        == SidebarState(DocsPanel, s.indexCategoryId, MessageEntry(data.categories, s.indexCategoryId).value.docCategoryIndex)
    ensures MessageEntry(data.categories, s.indexCategoryId).None? && DeletedNamed(data.deletedCategories, s.indexCategoryId) ==>
      UpdateIndexContent(s, data, active) == Disable(s)
    ensures MessageEntry(data.categories, s.indexCategoryId).None? && !DeletedNamed(data.deletedCategories, s.indexCategoryId) ==>
      UpdateIndexContent(s, data, active) == s
  {
  }

  /** While hidden, a message only re-evaluates the active category. */
  lemma HiddenSidebarReevaluates(s: SidebarState, data: Message, active: seq<ClientCategory>)
    requires s.panel != DocsPanel
    ensures UpdateIndexContent(s, data, active) == MaybeForce(s, active)
  {
  }
}
