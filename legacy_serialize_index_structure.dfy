/**
 * The older serializer and cache hooks, driven by the category's index-topic custom field
 * (lib/doc_categories/plugin_initializers/serialize_index_structure.rb).
 *
 * Its category check assigns where it means to compare; `IndexFieldAsWritten` keeps that
 * and `IndexField` is the comparison the comment beside it describes.
 */
module LegacySerializeIndexStructure {
  import opened Wrappers
  import opened Host
  import opened Store
  import P = DocIndexTopicParser
  import HandleCacheOnTopicChanges
  import HandleCacheOnPostChanges

  // ---------------------------------------------------------------------------
  // The serializer field.

  /**
   * The include condition's verdict and value, and the serialized object's id afterwards
   * (`None` for nil).
   */
  datatype FieldOutcome = FieldOutcome(value: Option<seq<P.Section>>, objectId: Option<int>)

  /**
   * The include condition as written: the category check assigns the topic's category id
   * to the serialized object and fails only when that id is nil, after the assignment
   * has already set the object's id to nil.
   */
  function IndexFieldAsWritten(category: Category, site: Site): (r: FieldOutcome)
    ensures r.objectId != Some(category.id) ==>
      category.docIndexTopicId.Some? && category.docIndexTopicId.value in site.topics
      && r.objectId == site.topics[category.docIndexTopicId.value].categoryId
    ensures r.value.Some? ==>
      category.docIndexTopicId.Some? && category.docIndexTopicId.value in site.topics
      && site.topics[category.docIndexTopicId.value].categoryId.Some?
      && r.objectId == site.topics[category.docIndexTopicId.value].categoryId
      && r.value.value != []
  {
    if category.docIndexTopicId.None? then FieldOutcome(None, Some(category.id))
    else
      match site.FindTopic(category.docIndexTopicId.value)
      case None => FieldOutcome(None, Some(category.id))
      case Some(topic) =>
        if topic.categoryId.None? then FieldOutcome(None, None)
        else
          match site.FirstPost(topic.id)
          case None => FieldOutcome(None, topic.categoryId)
          case Some(post) => FieldOutcome(P.ParseCooked(site.parseHtml, post.cooked), topic.categoryId)
  }

  /**
   * An index topic without a category is refused, but only after the assignment has set
   * the serialized category's id to nil.
   */
  lemma CategorylessIndexTopicNilsId(category: Category, site: Site, topic: Topic)
    requires category.docIndexTopicId == Some(topic.id) && topic.id in site.topics && site.topics[topic.id] == topic
    requires topic.categoryId.None?
    ensures IndexFieldAsWritten(category, site) == FieldOutcome(None, None)
    ensures IndexField(category, site).None?
  {
  }

  /** The include condition with the comparison it intends: the index topic must sit in this very category. */
  function IndexField(category: Category, site: Site): Option<seq<P.Section>> {
    if category.docIndexTopicId.None? then None
    else
      match site.FindTopic(category.docIndexTopicId.value)
      case None => None
      case Some(topic) =>
        if topic.categoryId != Some(category.id) then None
        else
          match site.FirstPost(topic.id)
          case None => None
          case Some(post) => P.ParseCooked(site.parseHtml, post.cooked)
  }

  /**
   * An index topic living in another category, whose first post holds a linked list, is
   * served for this category all the same, and the serialized category takes the other
   * category's id.
   */
  lemma ForeignIndexTopicServed(category: Category, site: Site, topic: Topic, post: Post)
    requires category.docIndexTopicId == Some(topic.id) && topic.id in site.topics && site.topics[topic.id] == topic
    requires topic.categoryId.Some? && topic.categoryId.value != category.id
    requires topic.id in site.firstPosts && site.firstPosts[topic.id] == post
    requires P.ParseCooked(site.parseHtml, post.cooked).Some?
    ensures IndexFieldAsWritten(category, site).value.Some?
    ensures IndexFieldAsWritten(category, site).objectId == topic.categoryId != Some(category.id)
    ensures IndexField(category, site).None?
  {
  }

  /**
   * The intended field is served only for an index topic in this category, its value
   * holds only linked sections, and it agrees with the code as written there, which then
   * leaves the object's id alone.
   */
  lemma IndexFieldSpec(category: Category, site: Site)
    ensures IndexField(category, site).Some? ==>
      category.docIndexTopicId.Some? && category.docIndexTopicId.value in site.topics
      && site.topics[category.docIndexTopicId.value].categoryId == Some(category.id)
    ensures IndexField(category, site).Some? ==>
      IndexField(category, site).value != [] && forall i :: 0 <= i < |IndexField(category, site).value| ==> IndexField(category, site).value[i].links != []
    ensures (category.docIndexTopicId.Some? && category.docIndexTopicId.value in site.topics
             && site.topics[category.docIndexTopicId.value].categoryId == Some(category.id)) ==>
      IndexFieldAsWritten(category, site) == FieldOutcome(IndexField(category, site), Some(category.id))
  {
  }

  // ---------------------------------------------------------------------------
  // The Topic hooks.

  /** `@doc_categories_invalidation_data`: the category change, if any, and whether `deleted_at` changes. */
  datatype Stash = Stash(categoryChange: Option<CategoryChange>, deletedAtChanged: bool)

  /** `doc_categories_invalidate_index`'s effects, given the stash it finds. */
  function TopicCommitEffects(stash: Option<Stash>, topicId: int, categoryId: Option<int>, site: Site): seq<Event> {
    if stash.None? then []
    else
      var current := HandleCacheOnTopicChanges.CategoryFor(categoryId, site);
      var previous := if stash.value.categoryChange.Some? then HandleCacheOnTopicChanges.CategoryFor(stash.value.categoryChange.value.previous, site) else None;
      if HandleCacheOnTopicChanges.IndexedBy(current, topicId) || HandleCacheOnTopicChanges.IndexedBy(previous, topicId) then [ClearSiteCache]
      else []
  }

  /** A topic record with the legacy hooks. */
  class LegacyTopic {
    const id: int
    var categoryId: Option<int>
    var deletedAt: Option<int>
    var stash: Option<Stash>

    constructor (id: int, categoryId: Option<int>, deletedAt: Option<int>)
      ensures this.id == id && this.categoryId == categoryId && this.deletedAt == deletedAt && stash.None?
    {
      this.id := id;
      this.categoryId := categoryId;
      this.deletedAt := deletedAt;
      stash := None;
    }

    /** `before_save`, then the save: the stash is taken only when the category or the deletion time will change. */
    method Save(newCategoryId: Option<int>, newDeletedAt: Option<int>)
      modifies this
      ensures categoryId == newCategoryId && deletedAt == newDeletedAt
      ensures stash == if newCategoryId != old(categoryId) || newDeletedAt != old(deletedAt) then
        Some(Stash(if newCategoryId != old(categoryId) then Some(CategoryChange(old(categoryId), newCategoryId)) else None,
                   newDeletedAt != old(deletedAt)))
        else old(stash)
    {
      if newCategoryId != categoryId || newDeletedAt != deletedAt {
        var change := if newCategoryId != categoryId then Some(CategoryChange(categoryId, newCategoryId)) else None;
        stash := Some(Stash(change, newDeletedAt != deletedAt));
      }
      categoryId := newCategoryId;
      deletedAt := newDeletedAt;
    }

    /** `after_commit`: consume the stash and clear the cache when this topic indexes the current or the old category. */
    method AfterCommit(db: Db, site: Site)
      modifies this, db
      ensures stash.None? && categoryId == old(categoryId) && deletedAt == old(deletedAt)
      ensures db.indexes == old(db.indexes) && db.log == old(db.log) + TopicCommitEffects(old(stash), id, categoryId, site)
    {
      if stash.None? {
        return;
      }
      var invalidate := HandleCacheOnTopicChanges.IndexedBy(HandleCacheOnTopicChanges.CategoryFor(categoryId, site), id);
      if !invalidate && stash.value.categoryChange.Some? {
        invalidate := HandleCacheOnTopicChanges.IndexedBy(HandleCacheOnTopicChanges.CategoryFor(stash.value.categoryChange.value.previous, site), id);
      }
      stash := None;
      if invalidate {
        db.ClearSiteCache();
      }
    }
  }

  /**
   * For a category move, the legacy commit clears the cache exactly when the current hook
   * does, and never publishes.
   */
  lemma TopicCommitMatchesCurrentHook(change: CategoryChange, deletedAtChanged: bool, topicId: int, categoryId: Option<int>, site: Site)
    ensures var events := TopicCommitEffects(Some(Stash(Some(change), deletedAtChanged)), topicId, categoryId, site);
      (events == [ClearSiteCache] <==> ClearSiteCache in HandleCacheOnTopicChanges.CommitEffects(Some(change), topicId, categoryId, site))
      && (events == [] || events == [ClearSiteCache])
  {
    HandleCacheOnTopicChanges.CommitEffectsSpec(change, topicId, categoryId, site);
  }

  /** Trashing the index topic of its category, without a move, clears the cache. */
  lemma TrashedIndexTopicClears(topicId: int, category: Category, site: Site)
    requires category.id in site.categories && site.categories[category.id] == category
    requires category.docIndexTopicId == Some(topicId)
    ensures TopicCommitEffects(Some(Stash(None, true)), topicId, Some(category.id), site) == [ClearSiteCache]
  {
  }

  // ---------------------------------------------------------------------------
  // The Post hook.

  /** The Post `after_commit` hook's effects; `topic` is the post's topic. */
  function PostCommitEffects(isFirstPost: bool, cookedChanged: bool, topic: Topic, site: Site): seq<Event> {
    if !isFirstPost || !cookedChanged then []
    else
      match site.CategoryOf(topic)
      case None => []
      case Some(category) =>
        if category.docIndexTopicId.None? || topic.id != category.docIndexTopicId.value then [] else [ClearSiteCache]
  }

  method PostAfterCommit(db: Db, isFirstPost: bool, cookedChanged: bool, topic: Topic, site: Site)
    modifies db
    ensures db.indexes == old(db.indexes) && db.log == old(db.log) + PostCommitEffects(isFirstPost, cookedChanged, topic, site)
  {
    if !isFirstPost || !cookedChanged {
      return;
    }
    var category := site.CategoryOf(topic);
    if category.None? || category.value.docIndexTopicId.None? || topic.id != category.value.docIndexTopicId.value {
      return;
    }
    db.ClearSiteCache();
  }

  /** The legacy Post hook clears the cache exactly when the current one acts, and never publishes. */
  lemma PostCommitMatchesCurrentHook(isFirstPost: bool, cookedChanged: bool, topic: Topic, site: Site)
    ensures PostCommitEffects(isFirstPost, cookedChanged, topic, site)
      == if HandleCacheOnPostChanges.PostCommitEffects(isFirstPost, cookedChanged, topic, site) != [] then [ClearSiteCache] else []
  {
  }
}
