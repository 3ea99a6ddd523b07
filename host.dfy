/**
 * The parts of the host forum the plugin reads and the effects it has on it.
 *
 * Topics, categories and first posts are read-only snapshots here: the plugin's code
 * looks them up but never changes them. The host's routing (`Discourse.route_for`) and
 * HTML parsing are functions the site supplies. Job enqueues, site-cache clears,
 * category publishes and index touches are appended to an event log.
 */
module Host {
  import opened Wrappers
  import opened Html

  /** A topic as the plugin reads it; `categoryId` is nil for a topic outside every category. */
  datatype Topic = Topic(
    id: int,
    categoryId: Option<int>,
    title: string,
    isPrivateMessage: bool,
    trashed: bool,
    visible: bool,
    relativeUrl: string)

  /**
   * A category: `docIndexTopicId` is the `doc_category_index_topic` custom field
   * (`doc_index_topic_id`), registered as an integer.
   */
  datatype Category = Category(
    id: int,
    name: string,
    slug: string,
    parentId: Option<int>,
    docIndexTopicId: Option<int>)
  {
    /** `doc_category?`: the category has an index topic id. */
    predicate IsDocCategory() {
      docIndexTopicId.Some?
    }
  }

  /** A first post; `cooked` is its rendered HTML, nil when absent. */
  datatype Post = Post(topicId: int, cooked: Option<string>)

  /** The route `Discourse.route_for` recognises for a URL: controller, action and path parameters. */
  datatype Route = Route(controller: string, action: string, params: map<string, string>)

  /** The `category_id` pair of a topic change: before and after. */
  datatype CategoryChange = CategoryChange(previous: Option<int>, current: Option<int>)

  /**
   * The post revisor as the edit handlers read it: whether it answers `topic_diff`, the
   * `category_id` entry of that diff when it has one, and whether `post_changes[:cooked]`
   * is present.
   */
  datatype Revisor = Revisor(hasTopicDiff: bool, categoryDiff: Option<CategoryChange>, cookedChanged: bool)

  /** The topic lifecycle events the handlers subscribe to. */
  datatype TopicEvent = TopicTrashed | TopicRecovered

  /** What the plugin does to the outside world, in order. */
  datatype Event =
    | EnqueueRefresh(categoryId: int)   // Jobs.enqueue(:doc_categories_refresh_index, category_id:)
    | ClearSiteCache                    // Site.clear_cache
    | PublishCategory(categoryId: int)  // category.publish_category
    | TouchIndex(categoryId: int)       // index.touch

  /**
   * The site: topics, categories and first posts by id, the router, and the HTML parser
   * that turns cooked text into the body's nodes.
   */
  datatype Site = Site(
    topics: map<int, Topic>,
    categories: map<int, Category>,
    firstPosts: map<int, Post>,
    routeFor: string -> Option<Route>,
    parseHtml: string -> seq<Node>)
  {
    /** Every stored topic carries the id it is stored under. */
    ghost predicate ConsistentIds() {
      forall k :: k in topics ==> topics[k].id == k
    }

    /** `Topic.find_by(id:)`. */
    function FindTopic(id: int): Option<Topic> {
      if id in topics then Some(topics[id]) else None
    }

    /** `Category.find_by(id:)`. */
    function FindCategory(id: int): Option<Category> {
      if id in categories then Some(categories[id]) else None
    }

    /** `topic.category`: nil for a topic outside every category or whose category is gone. */
    function CategoryOf(topic: Topic): (r: Option<Category>)
      ensures r.Some? ==> topic.categoryId.Some? && topic.categoryId.value in categories
    {
      if topic.categoryId.Some? then FindCategory(topic.categoryId.value) else None
    }

    /** `topic.first_post`. */
    function FirstPost(topicId: int): Option<Post> {
      if topicId in firstPosts then Some(firstPosts[topicId]) else None
    }
  }

  /** The refresh jobs a log enqueues, in order. */
  function Enqueued(log: seq<Event>): seq<int> {
    if log == [] then []
    else Enqueued(log[..|log| - 1]) + (if log[|log| - 1].EnqueueRefresh? then [log[|log| - 1].categoryId] else [])
  }

  /** The number of site-cache clears in a log. */
  function CacheClears(log: seq<Event>): nat {
    if log == [] then 0 else CacheClears(log[..|log| - 1]) + (if log[|log| - 1].ClearSiteCache? then 1 else 0)
  }

  /** The categories a log publishes, in order. */
  function Published(log: seq<Event>): seq<int> {
    if log == [] then []
    else Published(log[..|log| - 1]) + (if log[|log| - 1].PublishCategory? then [log[|log| - 1].categoryId] else [])
  }

  lemma {:induction false} LogAppend(a: seq<Event>, b: seq<Event>)
    ensures Enqueued(a + b) == Enqueued(a) + Enqueued(b)
    ensures CacheClears(a + b) == CacheClears(a) + CacheClears(b)
    ensures Published(a + b) == Published(a) + Published(b)
    decreases |b|
  {
    if b == [] {
      assert a + b == a;
    } else {
      assert (a + b)[..|a + b| - 1] == a + b[..|b| - 1];
      LogAppend(a, b[..|b| - 1]);
    }
  }
}
