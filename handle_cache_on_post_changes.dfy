/**
 * Cache clear and publish when the first post of an index topic is committed with new
 * cooked text (lib/doc_categories/initializers/handle_cache_on_post_changes.rb).
 */
module HandleCacheOnPostChanges {
  import opened Wrappers
  import opened Host
  import opened Store
  import HandlePostChanges

  /** The post `after_commit` callback's effects; `topic` is the post's topic. */
  function PostCommitEffects(isFirstPost: bool, cookedChanged: bool, topic: Topic, site: Site): seq<Event> {
    if !isFirstPost || !cookedChanged then []
    else
      match site.CategoryOf(topic)
      case None => []
      case Some(category) =>
        if category.docIndexTopicId.None? || topic.id != category.docIndexTopicId.value then []
        else [ClearSiteCache, PublishCategory(category.id)]
  }

  method AfterCommit(db: Db, isFirstPost: bool, cookedChanged: bool, topic: Topic, site: Site)
    modifies db
    ensures db.indexes == old(db.indexes) && db.log == old(db.log) + PostCommitEffects(isFirstPost, cookedChanged, topic, site)
  {
    if !isFirstPost {
      return;
    }
    if !cookedChanged {
      return;
    }
    var category := site.CategoryOf(topic);
    if category.None? {
      return;
    }
    var indexTopicId := category.value.docIndexTopicId;
    if indexTopicId.None? {
      return;
    }
    if topic.id != indexTopicId.value {
      return;
    }
    db.ClearSiteCache();
    db.PublishCategory(category.value.id);
  }

  /**
   * Something happens exactly when a first post's cooked text changed and its topic is the
   * index topic of its category; then the cache is cleared once and that category published once.
   */
  lemma PostCommitEffectsSpec(isFirstPost: bool, cookedChanged: bool, topic: Topic, site: Site)
    ensures PostCommitEffects(isFirstPost, cookedChanged, topic, site) != [] <==>
      isFirstPost && cookedChanged && topic.categoryId.Some? && topic.categoryId.value in site.categories
      && site.categories[topic.categoryId.value].docIndexTopicId == Some(topic.id)
    ensures PostCommitEffects(isFirstPost, cookedChanged, topic, site) != [] ==>
      PostCommitEffects(isFirstPost, cookedChanged, topic, site) == [ClearSiteCache, PublishCategory(site.categories[topic.categoryId.value].id)]
  {
  }

  /**
   * Whenever this callback acts, the `post_edited` handler of the same edit does exactly
   * the same, so such an edit clears the cache and publishes the category twice.
   */
  lemma AgreesWithPostEdited(topic: Topic, revisor: Revisor, site: Site)
    requires PostCommitEffects(true, revisor.cookedChanged, topic, site) != []
    ensures HandlePostChanges.PostChangeEffects(true, Some(topic), revisor, site) == PostCommitEffects(true, revisor.cookedChanged, topic, site)
  {
    HandlePostChanges.CookedIndexTopicEdit(topic, revisor, site);
  }
}
