/**
 * Refreshes after a post edit (lib/doc_categories/initializers/handle_post_events.rb).
 *
 * When the first post of a topic is edited, the category whose index topic it is gets a
 * refresh; when the edit moved the topic out of a category, the index binding that
 * category to this topic is destroyed and the old category gets a refresh too. Each
 * category is queued once.
 */
module HandlePostEvents {
  import opened Wrappers
  import opened Host
  import opened Store
  import opened Collections

  datatype Edit = Edit(indexes: seq<IndexRecord>, events: seq<Event>)

  /** `revisor.topic_diff.dig("category_id", 0)`, when the edit changed the topic and the revisor has a diff. */
  function OldCategoryId(topicChanged: bool, revisor: Revisor): Option<int> {
    if topicChanged && revisor.hasTopicDiff && revisor.categoryDiff.Some? then revisor.categoryDiff.value.previous
    else None
  }

  /** `refresh_category_ids`: the category indexed by this topic, then the old category. */
  function RefreshCategoryIds(indexes: seq<IndexRecord>, topicId: int, oldCategoryId: Option<int>): seq<int> {
    (match FindByIndexTopic(indexes, topicId)
     case Some(k) => [indexes[k].categoryId]
     case None => [])
    + (if oldCategoryId.Some? then [oldCategoryId.value] else [])
  }

  /** `Index.where(category_id:, index_topic_id:).destroy_all`. */
  function DestroyBinding(indexes: seq<IndexRecord>, categoryId: int, topicId: int): seq<IndexRecord> {
    if indexes == [] then []
    else
      var last := indexes[|indexes| - 1];
      DestroyBinding(indexes[..|indexes| - 1], categoryId, topicId)
      + (if last.categoryId == categoryId && last.indexTopicId == topicId then [] else [last])
  }

  /** One refresh job per id, in order. */
  function Enqueues(ids: seq<int>): (r: seq<Event>)
    ensures |r| == |ids| && forall i :: 0 <= i < |ids| ==> r[i] == EnqueueRefresh(ids[i])
  {
    seq(|ids|, i requires 0 <= i < |ids| => EnqueueRefresh(ids[i]))
  }

  /** The `post_edited` handler. */
  function PostEdited(indexes: seq<IndexRecord>, enabled: bool, isFirstPost: bool, topic: Option<Topic>,
                      topicChanged: bool, revisor: Revisor): Edit
  {
    if !enabled || !isFirstPost || topic.None? then Edit(indexes, [])
    else
      var previous := OldCategoryId(topicChanged, revisor);
      var ids := Dedup(RefreshCategoryIds(indexes, topic.value.id, previous));
      var after := if previous.Some? then DestroyBinding(indexes, previous.value, topic.value.id) else indexes;
      Edit(after, Enqueues(ids))
  }

  method OnPostEdited(db: Db, enabled: bool, isFirstPost: bool, topic: Option<Topic>, topicChanged: bool, revisor: Revisor)
    modifies db
    ensures var e := PostEdited(old(db.indexes), enabled, isFirstPost, topic, topicChanged, revisor);
      db.indexes == e.indexes && db.log == old(db.log) + e.events
  {
    if !enabled || !isFirstPost || topic.None? {
      return;
    }
    var refreshIds: seq<int> := [];
    var found := FindByIndexTopic(db.indexes, topic.value.id);
    if found.Some? {
      refreshIds := refreshIds + [db.indexes[found.value].categoryId];
    }
    var previous := OldCategoryId(topicChanged, revisor);
    if previous.Some? {
      db.indexes := DestroyBinding(db.indexes, previous.value, topic.value.id);
      refreshIds := refreshIds + [previous.value];
    }
    assert refreshIds == RefreshCategoryIds(old(db.indexes), topic.value.id, previous);
    EnqueueAll(db, Dedup(refreshIds));
  }

  /** `each { Jobs.enqueue(...) }` over the ids. */
  method EnqueueAll(db: Db, ids: seq<int>)
    modifies db
    ensures db.indexes == old(db.indexes) && db.log == old(db.log) + Enqueues(ids)
  {
    var i := 0;
    while i < |ids|
      invariant 0 <= i <= |ids|
      invariant db.indexes == old(db.indexes)
      invariant db.log == old(db.log) + Enqueues(ids[..i])
    {
      db.EnqueueRefresh(ids[i]);
      assert Enqueues(ids[..i + 1]) == Enqueues(ids[..i]) + [EnqueueRefresh(ids[i])];
      i := i + 1;
    }
    assert ids[..i] == ids;
  }

  // ---------------------------------------------------------------------------
  // What the handler promises.

  /** `destroy_all` removes exactly the indexes binding that category to that topic, keeping the rest in order. */
  lemma {:induction false} DestroyBindingSpec(indexes: seq<IndexRecord>, categoryId: int, topicId: int)
    ensures forall x :: x in DestroyBinding(indexes, categoryId, topicId) <==>
      x in indexes && !(x.categoryId == categoryId && x.indexTopicId == topicId)
    ensures |DestroyBinding(indexes, categoryId, topicId)| <= |indexes|
  {
    if indexes != [] {
      var front := indexes[..|indexes| - 1];
      DestroyBindingSpec(front, categoryId, topicId);
      assert forall x :: x in indexes <==> x in front || x == indexes[|indexes| - 1];
    }
  }

  /** Removing indexes keeps the others' keys unique. */
  lemma {:induction false} DestroyBindingKeepsUniqueKeys(indexes: seq<IndexRecord>, categoryId: int, topicId: int)
    requires UniqueKeys(indexes)
    ensures UniqueKeys(DestroyBinding(indexes, categoryId, topicId))
  {
    if indexes != [] {
      var front := indexes[..|indexes| - 1];
      DestroyBindingKeepsUniqueKeys(front, categoryId, topicId);
      DestroyBindingSpec(front, categoryId, topicId);
    }
  }

  /** One job per id: a category is queued exactly when its id is listed, and distinct ids give distinct jobs. */
  lemma EnqueuesSpec(ids: seq<int>, c: int)
    ensures EnqueueRefresh(c) in Enqueues(ids) <==> c in ids
    ensures NoDuplicates(ids) ==> NoDuplicates(Enqueues(ids))
  {
    var ev := Enqueues(ids);
    if EnqueueRefresh(c) in ev {
      var i :| 0 <= i < |ev| && ev[i] == EnqueueRefresh(c);
      assert ids[i] == c;
    }
    if c in ids {
      var i :| 0 <= i < |ids| && ids[i] == c;
      assert ev[i] == EnqueueRefresh(c);
    }
  }

  /**
   * A category is queued exactly when this topic is its index topic or it is the category
   * the topic left, and no category is queued twice.
   */
  lemma EnqueuedCategories(indexes: seq<IndexRecord>, enabled: bool, isFirstPost: bool, topic: Option<Topic>,
                           topicChanged: bool, revisor: Revisor, c: int)
    requires enabled && isFirstPost && topic.Some?
    ensures var e := PostEdited(indexes, enabled, isFirstPost, topic, topicChanged, revisor);
      EnqueueRefresh(c) in e.events <==>
        (FindByIndexTopic(indexes, topic.value.id).Some? && indexes[FindByIndexTopic(indexes, topic.value.id).value].categoryId == c)
        || OldCategoryId(topicChanged, revisor) == Some(c)
    ensures var e := PostEdited(indexes, enabled, isFirstPost, topic, topicChanged, revisor);
      NoDuplicates(e.events)
  {
    var ids := Dedup(RefreshCategoryIds(indexes, topic.value.id, OldCategoryId(topicChanged, revisor)));
    EnqueuesSpec(ids, c);
  }

  /** The handler does nothing when the plugin is off, the post is a reply, or the topic is gone. */
  lemma IgnoredEdits(indexes: seq<IndexRecord>, enabled: bool, isFirstPost: bool, topic: Option<Topic>,
                     topicChanged: bool, revisor: Revisor)
    requires !enabled || !isFirstPost || topic.None?
    ensures PostEdited(indexes, enabled, isFirstPost, topic, topicChanged, revisor) == Edit(indexes, [])
  {
  }

  /**
   * An index topic moved out of the category it indexes: the index is gone, and that
   * category is queued once, although it is named twice.
   */
  lemma IndexTopicMovedAway(indexes: seq<IndexRecord>, topic: Topic, revisor: Revisor, k: nat)
    requires UniqueKeys(indexes) && k < |indexes|
    requires indexes[k].indexTopicId == topic.id
    requires revisor.hasTopicDiff && revisor.categoryDiff.Some? && revisor.categoryDiff.value.previous == Some(indexes[k].categoryId)
    ensures var e := PostEdited(indexes, true, true, Some(topic), true, revisor);
      e.events == [EnqueueRefresh(indexes[k].categoryId)]
      && FindByCategory(e.indexes, indexes[k].categoryId).None?
      && UniqueKeys(e.indexes)
  {
    var cid := indexes[k].categoryId;
    assert FindByIndexTopic(indexes, topic.id) == Some(k);
    assert RefreshCategoryIds(indexes, topic.id, Some(cid)) == [cid, cid];
    DedupTwice(cid);
    assert Enqueues([cid]) == [EnqueueRefresh(cid)];
    DestroyBindingSpec(indexes, cid, topic.id);
    DestroyBindingKeepsUniqueKeys(indexes, cid, topic.id);
    var rest := DestroyBinding(indexes, cid, topic.id);
    forall j | 0 <= j < |rest|
      ensures rest[j].categoryId != cid
    {
      assert rest[j] in rest;
      var i :| 0 <= i < |indexes| && indexes[i] == rest[j];
      assert i != k ==> indexes[i].categoryId != cid;
    }
  }

  /** `uniq` of a repeated id is that id once. */
  lemma DedupTwice(c: int)
    ensures Dedup([c, c]) == [c]
  {
    assert [c, c][..1] == [c];
    assert [c][..0] == [];
  }
}
