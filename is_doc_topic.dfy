/**
 * `isDocTopic` (assets/javascripts/discourse/lib/is-doc-topic.js): whether the client
 * treats a topic as documentation.
 */
module IsDocTopic {
  import opened Wrappers
  import opened DocCategorySidebar
  import opened Host
  import opened Store
  import SerializeIndexStructure

  /** A topic as the client holds it; `docTopic` is the serialized `doc_topic` flag. */
  datatype ClientTopic = ClientTopic(docTopic: bool, category: Option<ClientCategory>)

  /**
   * A topic flagged by the server is one; otherwise its category decides: a serialized
   * index must be non-empty, and without one the category's index-topic custom field,
   * registered as an integer, must be truthy: present and not 0.
   */
  predicate IsDocTopic(topic: Option<ClientTopic>) {
    if topic.None? then false
    else if topic.value.docTopic then true
    else if topic.value.category.None? then false
    else
      var category := topic.value.category.value;
      if category.docCategoryIndex.Some? then |category.docCategoryIndex.value| > 0
      else category.indexTopicField.Some? && category.indexTopicField.value != 0
  }

  /** The server's flag always makes a doc topic, whatever its category holds. */
  lemma FlaggedTopicIsDocTopic(category: Option<ClientCategory>)
    ensures IsDocTopic(Some(ClientTopic(true, category)))
  {
  }

  /** Without a category, or with a category that has neither an index nor a truthy field, only the flag decides. */
  lemma FlagDecidesWithoutIndex(docTopic: bool, category: Option<ClientCategory>)
    requires category.Some? ==>
      category.value.docCategoryIndex.None? && (category.value.indexTopicField.None? || category.value.indexTopicField == Some(0))
    ensures IsDocTopic(Some(ClientTopic(docTopic, category))) <==> docTopic
  {
  }

  /**
   * A category whose `doc_category_index` the server serializes, as the client receives
   * it, makes every topic in it a doc topic.
   */
  lemma ServedIndexMakesDocTopics(category: Category, indexes: seq<IndexRecord>, site: Site, c: ClientCategory, docTopic: bool)
    requires SerializeIndexStructure.IndexField(category, indexes, site).Some?
    requires c.docCategoryIndex == SerializeIndexStructure.IndexField(category, indexes, site)
    ensures IsDocTopic(Some(ClientTopic(docTopic, Some(c))))
  {
  }

  /** A serialized but empty index outweighs the custom field. */
  lemma EmptyIndexOutweighsField(c: ClientCategory)
    requires c.docCategoryIndex == Some([])
    ensures !IsDocTopic(Some(ClientTopic(false, Some(c))))
  {
  }

  /** A topic of a category whose sidebar shows an index is a doc topic. */
  lemma IndexedCategoryTopics(c: ClientCategory, docTopic: bool)
    requires c.docCategoryIndex.Some? && c.docCategoryIndex.value != []
    ensures IsDocTopic(Some(ClientTopic(docTopic, Some(c))))
  {
  }
}
