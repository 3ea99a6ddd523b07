/**
 * Cache clears and publishes after a post edit (lib/doc_categories/initializers/handle_post_changes.rb).
 *
 * An edit of the cooked first post of a category's index topic resets that category; an
 * edit that moves a topic between categories resets each category, old or new, whose
 * index topic it is. A reset clears the site cache once and publishes each category.
 */
module HandlePostChanges {
  import opened Wrappers
  import opened Host
  import opened Store
  import opened Collections

  /**
   * `doc_index_topic?`: the category's index topic id equals the topic's id, both read
   * through safe navigation, so a missing category and a missing topic compare equal.
   */
  predicate DocIndexTopic(topic: Option<Topic>, category: Option<Category>) {
    (if category.Some? then category.value.docIndexTopicId else None)
    == (if topic.Some? then Some(topic.value.id) else None)
  }

  /** `post.topic&.category`. */
  function TopicCategory(topic: Option<Topic>, site: Site): Option<Category> {
    if topic.Some? then site.CategoryOf(topic.value) else None
  }

  /** `doc_index_topic_post_cooked_changed?`. */
  predicate CookedChangedOnIndexTopic(isFirstPost: bool, revisor: Revisor, topic: Option<Topic>, category: Option<Category>) {
    isFirstPost && revisor.cookedChanged && DocIndexTopic(topic, category)
  }

  /** `category_for_id`: nothing for a blank id, the current category when the ids match, else a lookup. */
  function CategoryForId(id: Option<int>, current: Option<Category>, site: Site): (r: Option<Category>)
    ensures id.None? ==> r.None?
    ensures r.Some? ==> Some(r.value.id) == id || (id.Some? && id.value in site.categories && r.value == site.categories[id.value])
  {
    if id.None? then None
    else if current.Some? && current.value.id == id.value then current
    else site.FindCategory(id.value)
  }

  /** `category_change_involves_doc_category?`: the old then the new category, when the topic indexes it. */
  function CategoriesInvolved(topic: Option<Topic>, current: Option<Category>, revisor: Revisor, site: Site): seq<Category> {
    if revisor.categoryDiff.None? then []
    else
      Involved(topic, CategoryForId(revisor.categoryDiff.value.previous, current, site),
               CategoryForId(revisor.categoryDiff.value.current, current, site))
  }

  /** The old then the new category, each when the topic indexes it, `compact.uniq`. */
  function Involved(topic: Option<Topic>, previous: Option<Category>, next: Option<Category>): seq<Category> {
    Dedup(Compact((if DocIndexTopic(topic, previous) then [previous] else [])
                  + (if DocIndexTopic(topic, next) then [next] else [])))
  }

  lemma InvolvedMembers(topic: Option<Topic>, previous: Option<Category>, next: Option<Category>, c: Category)
    ensures c in Involved(topic, previous, next) <==> DocIndexTopic(topic, Some(c)) && (previous == Some(c) || next == Some(c))
  {
    var first: seq<Option<Category>> := if DocIndexTopic(topic, previous) then [previous] else [];
    var second: seq<Option<Category>> := if DocIndexTopic(topic, next) then [next] else [];
    assert Some(c) in first <==> previous == Some(c) && DocIndexTopic(topic, Some(c));
    assert Some(c) in second <==> next == Some(c) && DocIndexTopic(topic, Some(c));
    assert Some(c) in first + second <==> Some(c) in first || Some(c) in second;
    CompactMembers(first + second, c);
  }

  /** The ids of some categories, in order. */
  function Ids(categories: seq<Category>): (r: seq<int>)
    ensures |r| == |categories| && forall i :: 0 <= i < |r| ==> r[i] == categories[i].id
  {
    seq(|categories|, i requires 0 <= i < |categories| => categories[i].id)
  }

  /** `publish_category` for each category, in order. */
  function Publishes(categories: seq<Category>): (r: seq<Event>)
    ensures |r| == |categories| && forall i :: 0 <= i < |r| ==> r[i] == PublishCategory(categories[i].id)
  {
    seq(|categories|, i requires 0 <= i < |categories| => PublishCategory(categories[i].id))
  }

  /** `reset_docs_categories`. */
  function ResetEvents(categories: seq<Category>): seq<Event> {
    [ClearSiteCache] + Publishes(categories)
  }

  /**
   * Outside the cooked-edit case the handler calls `revisor.topic_diff` unguarded, so a
   * revisor that does not answer it raises NoMethodError before anything is reset.
   */
  predicate PostChangeRaises(isFirstPost: bool, topic: Option<Topic>, revisor: Revisor, site: Site) {
    !CookedChangedOnIndexTopic(isFirstPost, revisor, topic, TopicCategory(topic, site)) && !revisor.hasTopicDiff
  }

  /** The `post_edited` handler's effects; none when it raises. */
  function PostChangeEffects(isFirstPost: bool, topic: Option<Topic>, revisor: Revisor, site: Site): seq<Event> {
    var category := TopicCategory(topic, site);
    if CookedChangedOnIndexTopic(isFirstPost, revisor, topic, category) then ResetEvents(Compact([category]))
    else if !revisor.hasTopicDiff then []
    else
      var categories := CategoriesInvolved(topic, category, revisor, site);
      if categories != [] then ResetEvents(categories) else []
  }

  /** The handler; `raised` reports the NoMethodError, after which nothing has changed. */
  method OnPostEdited(db: Db, isFirstPost: bool, topic: Option<Topic>, revisor: Revisor, site: Site) returns (raised: bool)
    modifies db
    ensures raised == PostChangeRaises(isFirstPost, topic, revisor, site)
    ensures db.indexes == old(db.indexes) && db.log == old(db.log) + PostChangeEffects(isFirstPost, topic, revisor, site)
    ensures raised ==> db.log == old(db.log)
  {
    raised := false;
    var category := TopicCategory(topic, site);
    if CookedChangedOnIndexTopic(isFirstPost, revisor, topic, category) {
      ResetDocsCategories(db, Compact([category]));
      return;
    }
    if !revisor.hasTopicDiff {
      raised := true;
      return;
    }
    var categories := CategoriesInvolved(topic, category, revisor, site);
    if categories != [] {
      ResetDocsCategories(db, categories);
    }
  }

  /** `reset_docs_categories`: one cache clear, then each category published in turn. */
  method ResetDocsCategories(db: Db, categories: seq<Category>)
    modifies db
    ensures db.indexes == old(db.indexes) && db.log == old(db.log) + ResetEvents(categories)
  {
    db.ClearSiteCache();
    var i := 0;
    while i < |categories|
      invariant 0 <= i <= |categories|
      invariant db.indexes == old(db.indexes)
      invariant db.log == old(db.log) + [ClearSiteCache] + Publishes(categories[..i])
    {
      db.PublishCategory(categories[i].id);
      assert Publishes(categories[..i + 1]) == Publishes(categories[..i]) + [PublishCategory(categories[i].id)];
      i := i + 1;
    }
    assert categories[..i] == categories;
  }

  // ---------------------------------------------------------------------------
  // What the handler promises.

  lemma {:induction false} PublishesLog(categories: seq<Category>)
    ensures CacheClears(Publishes(categories)) == 0
    ensures Published(Publishes(categories)) == Ids(categories)
  {
    if categories != [] {
      var front := categories[..|categories| - 1];
      PublishesLog(front);
      assert Publishes(categories) == Publishes(front) + [PublishCategory(categories[|categories| - 1].id)];
      LogAppend(Publishes(front), [PublishCategory(categories[|categories| - 1].id)]);
      assert [PublishCategory(categories[|categories| - 1].id)][..0] == [];
      assert Ids(categories) == Ids(front) + [categories[|categories| - 1].id];
    }
  }

  /** A reset clears the cache exactly once, whatever the number of categories, and publishes each one in order. */
  lemma ResetSpec(categories: seq<Category>)
    ensures CacheClears(ResetEvents(categories)) == 1
    ensures Published(ResetEvents(categories)) == Ids(categories)
  {
    PublishesLog(categories);
    LogAppend([ClearSiteCache], Publishes(categories));
    assert [ClearSiteCache][..0] == [];
  }

  /**
   * A changed first post of a category's index topic resets exactly that category,
   * whatever the edit did to the topic's category.
   */
  lemma CookedIndexTopicEdit(topic: Topic, revisor: Revisor, site: Site)
    requires revisor.cookedChanged
    requires site.CategoryOf(topic).Some? && site.CategoryOf(topic).value.docIndexTopicId == Some(topic.id)
    ensures PostChangeEffects(true, Some(topic), revisor, site) == [ClearSiteCache, PublishCategory(site.CategoryOf(topic).value.id)]
  {
    var c := site.CategoryOf(topic).value;
    assert Compact([Some(c)]) == [c] by {
      assert [Some(c)][..0] == [];
    }
  }

  /**
   * A category is involved in a move exactly when it is the old or the new category,
   * found through `category_for_id`, and the topic is its index topic; none is named twice.
   */
  lemma CategoriesInvolvedSpec(topic: Option<Topic>, current: Option<Category>, revisor: Revisor, site: Site, c: Category)
    ensures var cs := CategoriesInvolved(topic, current, revisor, site);
      c in cs <==>
        (revisor.categoryDiff.Some? && DocIndexTopic(topic, Some(c)) &&
         (CategoryForId(revisor.categoryDiff.value.previous, current, site) == Some(c)
          || CategoryForId(revisor.categoryDiff.value.current, current, site) == Some(c)))
    ensures NoDuplicates(CategoriesInvolved(topic, current, revisor, site))
  {
    if revisor.categoryDiff.Some? {
      InvolvedMembers(topic, CategoryForId(revisor.categoryDiff.value.previous, current, site),
                      CategoryForId(revisor.categoryDiff.value.current, current, site), c);
    }
  }

  /**
   * Outside the cooked-edit case, the handler raises without effect when the revisor has
   * no `topic_diff`; otherwise the involved categories are published in order after a
   * single cache clear, and nothing happens when none is involved.
   */
  lemma MoveEffects(isFirstPost: bool, topic: Option<Topic>, revisor: Revisor, site: Site)
    requires !CookedChangedOnIndexTopic(isFirstPost, revisor, topic, TopicCategory(topic, site))
    ensures PostChangeRaises(isFirstPost, topic, revisor, site) <==> !revisor.hasTopicDiff
    ensures !revisor.hasTopicDiff ==> PostChangeEffects(isFirstPost, topic, revisor, site) == []
    ensures revisor.hasTopicDiff ==>
      var cs := CategoriesInvolved(topic, TopicCategory(topic, site), revisor, site);
      var events := PostChangeEffects(isFirstPost, topic, revisor, site);
      Published(events) == Ids(cs) && CacheClears(events) == (if cs == [] then 0 else 1)
  {
    var cs := CategoriesInvolved(topic, TopicCategory(topic, site), revisor, site);
    if revisor.hasTopicDiff && cs != [] {
      ResetSpec(cs);
    }
  }

  /** A changed first post of the index topic resets before `topic_diff` is read, so it never raises. */
  lemma CookedEditNeverRaises(topic: Option<Topic>, revisor: Revisor, site: Site)
    requires CookedChangedOnIndexTopic(true, revisor, topic, TopicCategory(topic, site))
    ensures !PostChangeRaises(true, topic, revisor, site)
    ensures CacheClears(PostChangeEffects(true, topic, revisor, site)) == 1
  {
    ResetSpec(Compact([TopicCategory(topic, site)]));
  }

  /** Every edit clears the site cache at most once. */
  lemma AtMostOneClear(isFirstPost: bool, topic: Option<Topic>, revisor: Revisor, site: Site)
    ensures CacheClears(PostChangeEffects(isFirstPost, topic, revisor, site)) <= 1
  {
    var category := TopicCategory(topic, site);
    if CookedChangedOnIndexTopic(isFirstPost, revisor, topic, category) {
      ResetSpec(Compact([category]));
    } else {
      MoveEffects(isFirstPost, topic, revisor, site);
    }
  }

  /**
   * The safe-navigation comparison treats a missing topic as the index topic of a missing
   * category: a cooked first-post edit without a topic still clears the cache, publishing nothing.
   */
  lemma MissingTopicStillClears(revisor: Revisor, site: Site)
    requires revisor.cookedChanged
    ensures PostChangeEffects(true, None, revisor, site) == [ClearSiteCache]
  {
    var nothing: seq<Option<Category>> := [None];
    assert Compact(nothing) == [] by {
      assert nothing[..0] == [];
    }
  }
}
