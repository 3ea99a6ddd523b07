/** Refreshes after a topic is trashed or recovered (lib/doc_categories/initializers/handle_topic_events.rb). */
module HandleTopicEvents {
  import opened Wrappers
  import opened Host
  import opened Store

  /** `refresh_for_topic`: a refresh of the category whose index topic this is, if any; trash and recover alike. */
  function RefreshForTopic(event: TopicEvent, indexes: seq<IndexRecord>, enabled: bool, topic: Option<Topic>): seq<Event> {
    if !enabled || topic.None? then []
    else
      match FindByIndexTopic(indexes, topic.value.id)
      case Some(k) => [EnqueueRefresh(indexes[k].categoryId)]
      case None => []
  }

  method OnTopicEvent(db: Db, event: TopicEvent, enabled: bool, topic: Option<Topic>)
    modifies db
    ensures db.indexes == old(db.indexes) && db.log == old(db.log) + RefreshForTopic(event, old(db.indexes), enabled, topic)
  {
    if !enabled || topic.None? {
      return;
    }
    var found := FindByIndexTopic(db.indexes, topic.value.id);
    if found.Some? {
      db.EnqueueRefresh(db.indexes[found.value].categoryId);
    }
  }

  /**
   * At most one job, and one exactly when the plugin is on and some index has this topic
   * as its index topic; the job names that index's category.
   */
  lemma RefreshForTopicSpec(event: TopicEvent, indexes: seq<IndexRecord>, enabled: bool, topic: Option<Topic>)
    ensures |RefreshForTopic(event, indexes, enabled, topic)| <= 1
    ensures RefreshForTopic(event, indexes, enabled, topic) != [] <==>
      enabled && topic.Some? && exists k :: 0 <= k < |indexes| && indexes[k].indexTopicId == topic.value.id
    ensures forall c :: EnqueueRefresh(c) in RefreshForTopic(event, indexes, enabled, topic) ==>
      exists k :: 0 <= k < |indexes| && indexes[k].indexTopicId == topic.value.id && indexes[k].categoryId == c
  {
    if enabled && topic.Some? {
      match FindByIndexTopic(indexes, topic.value.id)
      case Some(k) =>
        assert indexes[k].indexTopicId == topic.value.id;
      case None =>
    }
  }

  /** Trash and recover follow the same rule. */
  lemma TrashAndRecoverAgree(indexes: seq<IndexRecord>, enabled: bool, topic: Option<Topic>)
    ensures RefreshForTopic(TopicTrashed, indexes, enabled, topic) == RefreshForTopic(TopicRecovered, indexes, enabled, topic)
  {
  }
}
