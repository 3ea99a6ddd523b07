/**
 * Cache clears and publishes when a topic changes category, is trashed or is recovered
 * (lib/doc_categories/initializers/handle_cache_on_topic_changes.rb).
 *
 * The category change a save makes is stashed on the topic in `after_save`, because the
 * commit hook no longer sees it, and consumed in `after_commit`.
 */
module HandleCacheOnTopicChanges {
  import opened Wrappers
  import opened Host
  import opened Store
  import HandleTopicChanges

  /** A category, read through an optional id. */
  function CategoryFor(id: Option<int>, site: Site): Option<Category> {
    if id.Some? then site.FindCategory(id.value) else None
  }

  /** The category's index topic id is present and is this topic's id. */
  predicate IndexedBy(category: Option<Category>, topicId: int) {
    category.Some? && category.value.docIndexTopicId == Some(topicId)
  }

  /** The `after_commit` callback's effects, given the stash it finds. */
  function CommitEffects(stash: Option<CategoryChange>, topicId: int, categoryId: Option<int>, site: Site): seq<Event> {
    if stash.None? then []
    else
      var current := CategoryFor(categoryId, site);
      var previous := CategoryFor(stash.value.previous, site);
      var publish := IndexedBy(current, topicId);
      var publishOld := IndexedBy(previous, topicId);
      (if publish || publishOld then [ClearSiteCache] else [])
      + (if publish then [PublishCategory(current.value.id)] else [])
      + (if publishOld then [PublishCategory(previous.value.id)] else [])
  }

  /** A topic record, with the stash the callbacks share. */
  class TopicCallbacks {
    const id: int
    var categoryId: Option<int>
    /** `@doc_categories_invalidation_data`: the last saved category change not yet committed. */
    var stash: Option<CategoryChange>

    constructor (id: int, categoryId: Option<int>)
      ensures this.id == id && this.categoryId == categoryId && stash.None?
    {
      this.id := id;
      this.categoryId := categoryId;
      stash := None;
    }

    /** A save that puts the topic in `newCategoryId`, followed by `after_save`: the change is stashed only if there is one. */
    method Save(newCategoryId: Option<int>)
      modifies this
      ensures categoryId == newCategoryId
      ensures stash == if newCategoryId != old(categoryId) then Some(CategoryChange(old(categoryId), newCategoryId)) else old(stash)
    {
      var previous := categoryId;
      categoryId := newCategoryId;
      if previous == newCategoryId {
        return;
      }
      stash := Some(CategoryChange(previous, newCategoryId));
    }

    /** `after_commit`: consume the stash, clear the cache and publish. */
    method AfterCommit(db: Db, site: Site)
      modifies this, db
      ensures stash.None? && categoryId == old(categoryId)
      ensures db.indexes == old(db.indexes) && db.log == old(db.log) + CommitEffects(old(stash), id, categoryId, site)
    {
      if stash.None? {
        return;
      }
      var current := CategoryFor(categoryId, site);
      var publish := IndexedBy(current, id);
      var previous := CategoryFor(stash.value.previous, site);
      var publishOld := IndexedBy(previous, id);
      stash := None;
      if publish || publishOld {
        db.ClearSiteCache();
      }
      if publish {
        db.PublishCategory(current.value.id);
      }
      if publishOld {
        db.PublishCategory(previous.value.id);
      }
    }
  }

  /** The `topic_trashed` and `topic_recovered` handlers: the same rule as the standalone handler's. */
  method OnTopicEvent(db: Db, event: TopicEvent, topic: Topic, site: Site)
    modifies db
    ensures db.indexes == old(db.indexes) && db.log == old(db.log) + HandleTopicChanges.TopicEventEffects(event, topic, site)
  {
    var category := site.CategoryOf(topic);
    if category.Some? && category.value.docIndexTopicId == Some(topic.id) {
      db.ClearSiteCache();
    }
    if category.Some? {
      db.PublishCategory(category.value.id);
    }
  }

  // ---------------------------------------------------------------------------
  // What the callbacks promise.

  /**
   * With a stash, the current category is published exactly when this topic is its index
   * topic, and so is the old category; the cache is cleared once exactly when either is.
   */
  lemma CommitEffectsSpec(change: CategoryChange, topicId: int, categoryId: Option<int>, site: Site)
    ensures var events := CommitEffects(Some(change), topicId, categoryId, site);
      CacheClears(events) <= 1
      && (ClearSiteCache in events <==> IndexedBy(CategoryFor(categoryId, site), topicId) || IndexedBy(CategoryFor(change.previous, site), topicId))
      && forall c :: PublishCategory(c) in events <==>
        (IndexedBy(CategoryFor(categoryId, site), topicId) && CategoryFor(categoryId, site).value.id == c)
        || (IndexedBy(CategoryFor(change.previous, site), topicId) && CategoryFor(change.previous, site).value.id == c)
  {
    var current := CategoryFor(categoryId, site);
    var previous := CategoryFor(change.previous, site);
    var clear: seq<Event> := if IndexedBy(current, topicId) || IndexedBy(previous, topicId) then [ClearSiteCache] else [];
    var publishes: seq<Event> := (if IndexedBy(current, topicId) then [PublishCategory(current.value.id)] else [])
      + (if IndexedBy(previous, topicId) then [PublishCategory(previous.value.id)] else []);
    assert CommitEffects(Some(change), topicId, categoryId, site) == clear + publishes;
    LogAppend(clear, publishes);
    assert CacheClears(publishes) == 0 by {
      var p1: seq<Event> := if IndexedBy(current, topicId) then [PublishCategory(current.value.id)] else [];
      var p2: seq<Event> := if IndexedBy(previous, topicId) then [PublishCategory(previous.value.id)] else [];
      LogAppend(p1, p2);
      assert p1 == [] || p1[..0] == [];
      assert p2 == [] || p2[..0] == [];
    }
    assert clear == [] || clear[..0] == [];
  }

  /** Without a stash the commit does nothing. */
  lemma CommitWithoutStash(topicId: int, categoryId: Option<int>, site: Site)
    ensures CommitEffects(None, topicId, categoryId, site) == []
  {
  }

  /**
   * An index topic moved out of the category it indexes into one it does not: one clear,
   * and the old category is published.
   */
  lemma IndexTopicMovedOut(topicId: int, from: Category, to: Category, site: Site)
    requires from.id in site.categories && site.categories[from.id] == from && from.docIndexTopicId == Some(topicId)
    requires to.id in site.categories && site.categories[to.id] == to && to.docIndexTopicId != Some(topicId)
    ensures CommitEffects(Some(CategoryChange(Some(from.id), Some(to.id))), topicId, Some(to.id), site)
      == [ClearSiteCache, PublishCategory(from.id)]
  {
  }
}
