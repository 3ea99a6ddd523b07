/**
 * Assigning or clearing a category's index topic
 * (app/services/doc_categories/category_index_manager.rb).
 *
 * `assign!` answers whether anything changed: a blank or non-positive topic id removes
 * the category's index, if there is one; a usable topic of the category becomes its
 * index topic unless it already is. Every change enqueues a refresh of the category.
 * Saving an index whose topic already indexes another category raises.
 */
module CategoryIndexManager {
  import opened Wrappers
  import opened Text
  import opened Host
  import opened Store
  import IndexModel

  datatype AssignResult =
    | Assigned(changed: bool)   // `assign!` returned true or false
    | AssignRecordInvalid       // `save!` raised: the topic already indexes another category

  datatype Assignment = Assignment(result: AssignResult, indexes: seq<IndexRecord>, events: seq<Event>)

  /** `normalize_topic_id`: nil for a blank value, otherwise its `to_i` when that is positive. */
  function NormalizeTopicId(value: Scalar): (r: Option<int>)
    ensures r.Some? ==> r.value > 0 && r.value == ScalarToI(value)
    ensures r.None? <==> ScalarBlank(value) || ScalarToI(value) <= 0
  {
    if ScalarBlank(value) then None
    else
      var id := ScalarToI(value);
      if id > 0 then Some(id) else None
  }

  /** `valid_index_topic?`: present, in this category, not a private message, not trashed. */
  predicate ValidIndexTopic(topic: Option<Topic>, categoryId: int) {
    && topic.Some?
    && topic.value.categoryId == Some(categoryId)
    && !topic.value.isPrivateMessage
    && !topic.value.trashed
  }

  /** The index of `categoryId` after `find_or_initialize_by` and `index_topic = topic`: an existing index keeps its sections. */
  function WithTopic(indexes: seq<IndexRecord>, categoryId: int, topicId: int): seq<IndexRecord> {
    match FindByCategory(indexes, categoryId)
    case Some(k) => indexes[k := indexes[k].(indexTopicId := topicId)]
    case None => indexes + [IndexRecord(categoryId, topicId, [])]
  }

  /** The other stored indexes, against which `save!` checks uniqueness. */
  function OtherIndexes(indexes: seq<IndexRecord>, categoryId: int): seq<IndexRecord> {
    match FindByCategory(indexes, categoryId)
    case Some(k) => DestroyAt(indexes, k)
    case None => indexes
  }

  /**
   * `assign!(value)` for `categoryId`. The topic is found by the normalized id, and a
   * found topic's `id` is that id.
   */
  function Assign(categoryId: int, indexes: seq<IndexRecord>, site: Site, value: Scalar): Assignment {
    match NormalizeTopicId(value)
    case None =>
      (match FindByCategory(indexes, categoryId)
       case Some(k) => Assignment(Assigned(true), DestroyAt(indexes, k), [EnqueueRefresh(categoryId)])
       case None => Assignment(Assigned(false), indexes, []))
    case Some(topicId) =>
      if !ValidIndexTopic(site.FindTopic(topicId), categoryId) then Assignment(Assigned(false), indexes, [])
      else
        var current := FindByCategory(indexes, categoryId);
        if current.Some? && indexes[current.value].indexTopicId == topicId then Assignment(Assigned(false), indexes, [])
        else if IndexModel.IndexErrors(Some(categoryId), Some(topicId), OtherIndexes(indexes, categoryId), site) != {} then
          Assignment(AssignRecordInvalid, indexes, [])
        else Assignment(Assigned(true), WithTopic(indexes, categoryId, topicId), [EnqueueRefresh(categoryId)])
  }

  class CategoryIndexManager {
    const category: Category

    constructor (category: Category)
      ensures this.category == category
    {
      this.category := category;
    }

    /** `assign!`. */
    method AssignTopic(db: Db, site: Site, value: Scalar) returns (result: AssignResult)
      modifies db
      ensures var a := Assign(category.id, old(db.indexes), site, value);
        result == a.result && db.indexes == a.indexes && db.log == old(db.log) + a.events
    {
      var topicId := NormalizeTopicId(value);
      if topicId.None? {
        var found := FindByCategory(db.indexes, category.id);
        if found.Some? {
          db.indexes := DestroyAt(db.indexes, found.value);
          db.EnqueueRefresh(category.id);
          return Assigned(true);
        }
        return Assigned(false);
      }
      var topic := site.FindTopic(topicId.value);
      if !ValidIndexTopic(topic, category.id) {
        return Assigned(false);
      }
      var current := FindByCategory(db.indexes, category.id);
      if current.Some? && db.indexes[current.value].indexTopicId == topicId.value {
        return Assigned(false);
      }
      if IndexModel.IndexErrors(Some(category.id), Some(topicId.value), OtherIndexes(db.indexes, category.id), site) != {} {
        return AssignRecordInvalid;
      }
      if current.Some? {
        var k := current.value;
        db.indexes := db.indexes[k := db.indexes[k].(indexTopicId := topicId.value)];
      } else {
        db.indexes := db.indexes + [IndexRecord(category.id, topicId.value, [])];
      }
      db.EnqueueRefresh(category.id);
      return Assigned(true);
    }
  }

  // ---------------------------------------------------------------------------
  // What assignment promises.

  /** `assign!` returns true exactly when it enqueues a refresh, and then enqueues exactly one. */
  lemma TrueIffEnqueued(categoryId: int, indexes: seq<IndexRecord>, site: Site, value: Scalar)
    ensures var a := Assign(categoryId, indexes, site, value);
      (a.result == Assigned(true) <==> a.events == [EnqueueRefresh(categoryId)])
      && (a.result != Assigned(true) <==> a.events == [] && a.indexes == indexes)
  {
  }

  /** Unresolvable ids ("abc", 0, negative numbers, blank strings) are treated as a request to clear the index. */
  lemma UnresolvableIdsClear(categoryId: int, indexes: seq<IndexRecord>, site: Site)
    ensures Assign(categoryId, indexes, site, Str("abc")) == Assign(categoryId, indexes, site, Nil)
    ensures Assign(categoryId, indexes, site, Int(0)) == Assign(categoryId, indexes, site, Nil)
  {
    assert !IsBlank("abc") by { assert !IsUnicodeSpace("abc"[0]); }
    ToINoDigits("abc");
  }

  /** A decimal string names the same topic as the number. */
  lemma DecimalStringIsItsNumber(categoryId: int, indexes: seq<IndexRecord>, site: Site, n: int)
    requires n > 0
    ensures Assign(categoryId, indexes, site, Str(IntToDecimal(n))) == Assign(categoryId, indexes, site, Int(n))
  {
    ToIOfDecimal(n);
    var d := IntToDecimal(n);
    assert !IsBlank(d) by {
      assert ScalarToI(Str(d)) != 0;
      if IsBlank(d) {
        ToINoDigits(d);
      }
    }
  }

  /** Giving the category's index a topic no other index has keeps the keys unique. */
  lemma WithTopicKeepsUniqueKeys(indexes: seq<IndexRecord>, categoryId: int, topicId: int)
    requires UniqueKeys(indexes)
    requires forall i :: 0 <= i < |OtherIndexes(indexes, categoryId)| ==> OtherIndexes(indexes, categoryId)[i].indexTopicId != topicId
    ensures UniqueKeys(WithTopic(indexes, categoryId, topicId))
  {
    var others := OtherIndexes(indexes, categoryId);
    match FindByCategory(indexes, categoryId)
    case None =>
    case Some(k) =>
      forall j | 0 <= j < |indexes| && j != k
        ensures indexes[j].indexTopicId != topicId
      {
        assert indexes[j] == others[if j < k then j else j - 1];
      }
  }

  /** Assignment keeps one index per category and per index topic. */
  lemma AssignKeepsUniqueKeys(categoryId: int, indexes: seq<IndexRecord>, site: Site, value: Scalar)
    requires UniqueKeys(indexes)
    ensures UniqueKeys(Assign(categoryId, indexes, site, value).indexes)
  {
    var a := Assign(categoryId, indexes, site, value);
    match NormalizeTopicId(value)
    case None =>
      if FindByCategory(indexes, categoryId).Some? {
        DestroyAtEffect(indexes, FindByCategory(indexes, categoryId).value);
      }
    case Some(topicId) =>
      if a.result == Assigned(true) {
        IndexModel.IndexErrorsEmptyIff(Some(categoryId), Some(topicId), OtherIndexes(indexes, categoryId), site);
        WithTopicKeepsUniqueKeys(indexes, categoryId, topicId);
      }
  }

  /** After a successful assignment the category's index names the topic and passes the index validations. */
  lemma AssignedTopicIsIndexed(categoryId: int, indexes: seq<IndexRecord>, site: Site, value: Scalar)
    requires UniqueKeys(indexes)
    requires Assign(categoryId, indexes, site, value).result == Assigned(true)
    requires NormalizeTopicId(value).Some?
    ensures var r := Assign(categoryId, indexes, site, value).indexes;
      FindByCategory(r, categoryId).Some?
      && r[FindByCategory(r, categoryId).value].indexTopicId == NormalizeTopicId(value).value
    ensures IndexModel.IndexErrors(Some(categoryId), Some(NormalizeTopicId(value).value), OtherIndexes(indexes, categoryId), site) == {}
  {
    AssignedIsWithTopic(categoryId, indexes, site, value);
    WithTopicIsFound(indexes, categoryId, NormalizeTopicId(value).value);
  }

  /** A true assignment of a topic gives the category's index that topic, and passed the index validations. */
  lemma AssignedIsWithTopic(categoryId: int, indexes: seq<IndexRecord>, site: Site, value: Scalar)
    requires Assign(categoryId, indexes, site, value).result == Assigned(true)
    requires NormalizeTopicId(value).Some?
    ensures Assign(categoryId, indexes, site, value).indexes == WithTopic(indexes, categoryId, NormalizeTopicId(value).value)
    ensures IndexModel.IndexErrors(Some(categoryId), Some(NormalizeTopicId(value).value), OtherIndexes(indexes, categoryId), site) == {}
  {
  }

  /** After `WithTopic` the category is found, and its index names the topic. */
  lemma WithTopicIsFound(indexes: seq<IndexRecord>, categoryId: int, topicId: int)
    ensures var r := WithTopic(indexes, categoryId, topicId);
      FindByCategory(r, categoryId).Some? && r[FindByCategory(r, categoryId).value].indexTopicId == topicId
  {
    var r := WithTopic(indexes, categoryId, topicId);
    match FindByCategory(indexes, categoryId)
    case None =>
      assert r[|indexes|].categoryId == categoryId;
    case Some(k) =>
      FindByCategorySameKeys(r, indexes, categoryId);
  }

  /** Clearing leaves the category without an index. */
  lemma ClearedCategoryIsUnindexed(categoryId: int, indexes: seq<IndexRecord>, site: Site, value: Scalar)
    requires UniqueKeys(indexes)
    requires NormalizeTopicId(value).None?
    ensures FindByCategory(Assign(categoryId, indexes, site, value).indexes, categoryId).None?
  {
    if FindByCategory(indexes, categoryId).Some? {
      DestroyAtEffect(indexes, FindByCategory(indexes, categoryId).value);
    }
  }

  /** Assigning the same value a second time changes nothing and answers false. */
  lemma AssignTwiceIsNoop(categoryId: int, indexes: seq<IndexRecord>, site: Site, value: Scalar)
    requires UniqueKeys(indexes)
    ensures var once := Assign(categoryId, indexes, site, value);
      once.result != AssignRecordInvalid ==>
        Assign(categoryId, once.indexes, site, value) == Assignment(Assigned(false), once.indexes, [])
  {
    var once := Assign(categoryId, indexes, site, value);
    if NormalizeTopicId(value).None? {
      ClearedCategoryIsUnindexed(categoryId, indexes, site, value);
    } else if once.result == Assigned(true) {
      AssignedTopicIsIndexed(categoryId, indexes, site, value);
    }
  }
}
