/**
 * The plugin's three tables (doc_categories_indexes, doc_categories_sidebar_sections and
 * doc_categories_sidebar_links), held as nested records: an index owns its sections and a
 * section its links, so destroying an index takes its sections and their links with it,
 * as the `dependent: :destroy` associations do.
 *
 * `Db` is the database the services change in place, together with the log of effects
 * they have on the host.
 */
module Store {
  import opened Wrappers
  import opened Text
  import opened Host

  datatype LinkRecord = LinkRecord(title: Option<string>, href: Option<string>, topicId: Option<int>, position: int)

  datatype SectionRecord = SectionRecord(title: Option<string>, position: int, links: seq<LinkRecord>)

  datatype IndexRecord = IndexRecord(categoryId: int, indexTopicId: int, sections: seq<SectionRecord>)

  /** The keys of `order(:position)` on an index's sections and a section's links. */
  function SectionPosition(s: SectionRecord): int { s.position }

  function LinkPosition(l: LinkRecord): int { l.position }

  /** A `length: { maximum: max }, allow_blank: true` validation: nil and blank values pass whatever their length. */
  predicate WithinLength(value: Option<string>, max: nat) {
    value.None? || IsBlank(value.value) || |value.value| <= max
  }

  /** `Index.find_by(category_id:)`: the first index of the category. */
  function FindByCategory(indexes: seq<IndexRecord>, categoryId: int): (r: Option<nat>)
    ensures r.Some? ==> r.value < |indexes| && indexes[r.value].categoryId == categoryId
    ensures r.Some? ==> forall i :: 0 <= i < r.value ==> indexes[i].categoryId != categoryId
    ensures r.None? ==> forall i :: 0 <= i < |indexes| ==> indexes[i].categoryId != categoryId
  {
    if indexes == [] then None
    else if indexes[0].categoryId == categoryId then Some(0)
    else
      match FindByCategory(indexes[1..], categoryId)
      case None => None
      case Some(i) => Some(i + 1)
  }

  /** `Index.find_by(index_topic_id:)`: the first index whose index topic is `topicId`. */
  function FindByIndexTopic(indexes: seq<IndexRecord>, topicId: int): (r: Option<nat>)
    ensures r.Some? ==> r.value < |indexes| && indexes[r.value].indexTopicId == topicId
    ensures r.Some? ==> forall i :: 0 <= i < r.value ==> indexes[i].indexTopicId != topicId
    ensures r.None? ==> forall i :: 0 <= i < |indexes| ==> indexes[i].indexTopicId != topicId
  {
    if indexes == [] then None
    else if indexes[0].indexTopicId == topicId then Some(0)
    else
      match FindByIndexTopic(indexes[1..], topicId)
      case None => None
      case Some(i) => Some(i + 1)
  }

  /** Removes the index at `k`, and with it its sections and links. */
  function DestroyAt(indexes: seq<IndexRecord>, k: nat): (r: seq<IndexRecord>)
    requires k < |indexes|
    ensures |r| == |indexes| - 1
    ensures forall i :: 0 <= i < |r| ==> r[i] == indexes[if i < k then i else i + 1]
  {
    indexes[..k] + indexes[k + 1..]
  }

  /** The uniqueness the index validations keep: one index per category and per index topic. */
  ghost predicate UniqueKeys(indexes: seq<IndexRecord>) {
    forall i, j :: 0 <= i < j < |indexes| ==>
      indexes[i].categoryId != indexes[j].categoryId && indexes[i].indexTopicId != indexes[j].indexTopicId
  }

  /** Lookup by category depends on the categories alone, not on what the indexes hold. */
  lemma {:induction false} FindByCategorySameKeys(a: seq<IndexRecord>, b: seq<IndexRecord>, categoryId: int)
    requires |a| == |b|
    requires forall i :: 0 <= i < |a| ==> a[i].categoryId == b[i].categoryId
    ensures FindByCategory(a, categoryId) == FindByCategory(b, categoryId)
  {
    if a != [] {
      FindByCategorySameKeys(a[1..], b[1..], categoryId);
    }
  }

  /** With unique keys, an index is found by its category exactly where it sits. */
  lemma FindByCategoryUnique(indexes: seq<IndexRecord>, k: nat)
    requires UniqueKeys(indexes) && k < |indexes|
    ensures FindByCategory(indexes, indexes[k].categoryId) == Some(k)
  {
  }

  /** Destroying an index keeps the others unique and makes its category unindexed. */
  lemma DestroyAtEffect(indexes: seq<IndexRecord>, k: nat)
    requires UniqueKeys(indexes) && k < |indexes|
    ensures UniqueKeys(DestroyAt(indexes, k))
    ensures FindByCategory(DestroyAt(indexes, k), indexes[k].categoryId).None?
  {
    var r := DestroyAt(indexes, k);
    forall i | 0 <= i < |r|
      ensures r[i].categoryId != indexes[k].categoryId
    {
      assert r[i] == indexes[if i < k then i else i + 1];
    }
  }

  class Db {
    /** The rows of doc_categories_indexes, each with its sections and links. */
    var indexes: seq<IndexRecord>
    /** What has been done to the host so far. */
    var log: seq<Event>

    ghost predicate Valid()
      reads this
    {
      UniqueKeys(indexes)
    }

    constructor ()
      ensures indexes == [] && log == [] && Valid()
    {
      indexes := [];
      log := [];
    }

    /** `Site.clear_cache`. */
    method ClearSiteCache()
      modifies this
      ensures indexes == old(indexes) && log == old(log) + [Event.ClearSiteCache]
    {
      log := log + [Event.ClearSiteCache];
    }

    /** `category.publish_category`. */
    method PublishCategory(categoryId: int)
      modifies this
      ensures indexes == old(indexes) && log == old(log) + [Event.PublishCategory(categoryId)]
    {
      log := log + [Event.PublishCategory(categoryId)];
    }

    /** `index.touch`. */
    method TouchIndex(categoryId: int)
      modifies this
      ensures indexes == old(indexes) && log == old(log) + [Event.TouchIndex(categoryId)]
    {
      log := log + [Event.TouchIndex(categoryId)];
    }

    /** `Jobs.enqueue(:doc_categories_refresh_index, category_id:)`. */
    method EnqueueRefresh(categoryId: int)
      modifies this
      ensures indexes == old(indexes) && log == old(log) + [Event.EnqueueRefresh(categoryId)]
    {
      log := log + [Event.EnqueueRefresh(categoryId)];
    }
  }
}
