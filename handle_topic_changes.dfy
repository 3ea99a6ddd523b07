/**
 * Cache and publish on topic trash and recover (lib/doc_categories/initializers/handle_topic_changes.rb):
 * the site cache is cleared when the topic is its category's index topic, and the
 * category is published whenever the topic has one.
 */
module HandleTopicChanges {
  import opened Wrappers
  import opened Host
  import opened Store

  /** The trash and recover handler's effects. */
  function TopicEventEffects(event: TopicEvent, topic: Topic, site: Site): seq<Event> {
    var category := site.CategoryOf(topic);
    (if category.Some? && category.value.docIndexTopicId == Some(topic.id) then [ClearSiteCache] else [])
    + (if category.Some? then [PublishCategory(category.value.id)] else [])
  }

  method OnTopicEvent(db: Db, event: TopicEvent, topic: Topic, site: Site)
    modifies db
    ensures db.indexes == old(db.indexes) && db.log == old(db.log) + TopicEventEffects(event, topic, site)
  {
    var category := site.CategoryOf(topic);
    if category.Some? && category.value.docIndexTopicId == Some(topic.id) {
      db.ClearSiteCache();
    }
    if category.Some? {
      db.PublishCategory(category.value.id);
    }
  }

  /**
   * The cache is cleared exactly when the topic is its category's index topic; the
   * category is published exactly when the topic has one, index topic or not.
   */
  lemma TopicEventEffectsSpec(event: TopicEvent, topic: Topic, site: Site)
    ensures ClearSiteCache in TopicEventEffects(event, topic, site) <==>
      topic.categoryId.Some? && topic.categoryId.value in site.categories
      && site.categories[topic.categoryId.value].docIndexTopicId == Some(topic.id)
    ensures forall c :: PublishCategory(c) in TopicEventEffects(event, topic, site) <==>
      topic.categoryId.Some? && topic.categoryId.value in site.categories && site.categories[topic.categoryId.value].id == c
    ensures topic.categoryId.None? ==> TopicEventEffects(event, topic, site) == []
  {
  }

  /** Trash and recover follow the same rule. */
  lemma TrashAndRecoverAgree(topic: Topic, site: Site)
    ensures TopicEventEffects(TopicTrashed, topic, site) == TopicEventEffects(TopicRecovered, topic, site)
  {
  }
}
