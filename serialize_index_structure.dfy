/**
 * The `doc_category_index` field of the basic category serializer
 * (lib/doc_categories/initializers/serialize_index_structure.rb): the stored structure of
 * the category's index, served only when the index topic lives in that very category.
 */
module SerializeIndexStructure {
  import opened Wrappers
  import opened Host
  import opened Store
  import opened IndexModel

  /**
   * The include condition and the value it leaves for the field: nothing without an
   * index, without its topic, when the topic sits in another category (a subcategory
   * included), without a first post, or when the structure is empty.
   */
  function IndexField(category: Category, indexes: seq<IndexRecord>, site: Site): (r: Option<seq<StructureSection>>)
    ensures r.Some? ==> r.value != []
    ensures r.Some? ==>
      FindByCategory(indexes, category.id).Some?
      && indexes[FindByCategory(indexes, category.id).value].indexTopicId in site.topics
      && site.topics[indexes[FindByCategory(indexes, category.id).value].indexTopicId].categoryId == Some(category.id)
  {
    match FindByCategory(indexes, category.id)
    case None => None
    case Some(k) =>
      var index := indexes[k];
      match site.FindTopic(index.indexTopicId)
      case None => None
      case Some(topic) =>
        if topic.categoryId != Some(category.id) then None
        else if site.FirstPost(topic.id).None? then None
        else
          var structure := SidebarStructure(index, site);
          if structure == [] then None else Some(structure)
  }

  /** Index `k` is this category's, its topic lies in the category and has a first post, and its structure is not empty. */
  predicate Servable(category: Category, indexes: seq<IndexRecord>, site: Site, k: nat) {
    && k < |indexes| && indexes[k].categoryId == category.id
    && indexes[k].indexTopicId in site.topics
    && site.topics[indexes[k].indexTopicId].categoryId == Some(category.id)
    && site.topics[indexes[k].indexTopicId].id in site.firstPosts
    && SidebarStructure(indexes[k], site) != []
  }

  /** The field is served exactly when some index passes every check, and its value is then that index's structure. */
  lemma IndexFieldIff(category: Category, indexes: seq<IndexRecord>, site: Site)
    requires UniqueKeys(indexes)
    ensures IndexField(category, indexes, site).Some? <==> exists k: nat :: Servable(category, indexes, site, k)
    ensures forall k: nat :: Servable(category, indexes, site, k) ==> IndexField(category, indexes, site) == Some(SidebarStructure(indexes[k], site))
  {
    forall k: nat | Servable(category, indexes, site, k)
      ensures IndexField(category, indexes, site) == Some(SidebarStructure(indexes[k], site))
    {
      FindByCategoryUnique(indexes, k);
    }
    if IndexField(category, indexes, site).Some? {
      assert Servable(category, indexes, site, FindByCategory(indexes, category.id).value);
    }
  }

  /**
   * What is served is never empty, and every link in it is a visible topic of this
   * category addressed by its URL.
   */
  lemma ServedFieldIsSafe(category: Category, indexes: seq<IndexRecord>, site: Site)
    requires site.ConsistentIds()
    requires IndexField(category, indexes, site).Some?
    ensures var s := IndexField(category, indexes, site).value;
      s != [] && forall i, j :: 0 <= i < |s| && 0 <= j < |s[i].links| ==> ServedLink(s[i].links[j], category.id, site)
  {
    var k := FindByCategory(indexes, category.id).value;
    SidebarStructureSpec(indexes[k], site);
  }

  /** An index whose topic lives in a subcategory of the category is not served. */
  lemma SubcategoryIndexTopicNotServed(category: Category, indexes: seq<IndexRecord>, site: Site, k: nat)
    requires UniqueKeys(indexes) && k < |indexes| && indexes[k].categoryId == category.id
    requires indexes[k].indexTopicId in site.topics
    requires site.topics[indexes[k].indexTopicId].categoryId.Some?
    requires site.topics[indexes[k].indexTopicId].categoryId.value in site.categories
    requires site.categories[site.topics[indexes[k].indexTopicId].categoryId.value].parentId == Some(category.id)
    requires site.topics[indexes[k].indexTopicId].categoryId.value != category.id
    ensures IndexField(category, indexes, site).None?
  {
    FindByCategoryUnique(indexes, k);
  }
}
