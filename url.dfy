/**
 * Topic-id extraction from a link's URL (lib/doc_categories/url.rb).
 *
 * The URL is handed to the host router; only a route to `topics#show` names a topic,
 * and its id is the `to_i` of the `topic_id` path parameter, or of `id` when there is
 * no `topic_id`. A route to `topics#show` that carries neither reads as `nil.to_i`, 0.
 */
module Url {
  import opened Wrappers
  import opened Text
  import opened Host

  /** `route[:topic_id] || route[:id]`: the preferred parameter, nil when the route has neither. */
  function TopicIdParam(route: Route): (r: Option<string>)
    ensures "topic_id" in route.params ==> r == Some(route.params["topic_id"])
    ensures "topic_id" !in route.params && "id" in route.params ==> r == Some(route.params["id"])
    ensures r.None? <==> "topic_id" !in route.params && "id" !in route.params
  {
    if "topic_id" in route.params then Some(route.params["topic_id"])
    else if "id" in route.params then Some(route.params["id"])
    else None
  }

  predicate IsTopicShow(route: Route) {
    route.controller == "topics" && route.action == "show"
  }

  /** `extract_topic_id_from_url(url)`. */
  function ExtractTopicIdFromUrl(routeFor: string -> Option<Route>, url: string): (r: Option<int>)
    ensures r.Some? <==> routeFor(url).Some? && IsTopicShow(routeFor(url).value)
  {
    match routeFor(url)
    case None => None
    case Some(route) =>
      if !IsTopicShow(route) then None
      else
        match TopicIdParam(route)
        case None => Some(0)
        case Some(param) => Some(ToI(param))
  }

  /** The topic an href routes to; a nil href routes nowhere. */
  function HrefTopicId(site: Site, href: Option<string>): Option<int> {
    if href.None? then None else ExtractTopicIdFromUrl(site.routeFor, href.value)
  }

  /** A topic route with a decimal `topic_id` names exactly that topic, whatever `id` says. */
  lemma TopicRouteNamesItsTopic(routeFor: string -> Option<Route>, url: string, id: int)
    requires routeFor(url).Some? && IsTopicShow(routeFor(url).value)
    requires "topic_id" in routeFor(url).value.params
    requires routeFor(url).value.params["topic_id"] == IntToDecimal(id)
    ensures ExtractTopicIdFromUrl(routeFor, url) == Some(id)
  {
    ToIOfDecimal(id);
  }

  /** Without a `topic_id`, a decimal `id` is the topic. */
  lemma IdParamNamesItsTopic(routeFor: string -> Option<Route>, url: string, id: int)
    requires routeFor(url).Some? && IsTopicShow(routeFor(url).value)
    requires "topic_id" !in routeFor(url).value.params && "id" in routeFor(url).value.params
    requires routeFor(url).value.params["id"] == IntToDecimal(id)
    ensures ExtractTopicIdFromUrl(routeFor, url) == Some(id)
  {
    ToIOfDecimal(id);
  }

  /** A topic route with neither parameter yields 0, which names no topic. */
  lemma TopicRouteWithoutIds(routeFor: string -> Option<Route>, url: string)
    requires routeFor(url).Some? && IsTopicShow(routeFor(url).value)
    requires "topic_id" !in routeFor(url).value.params && "id" !in routeFor(url).value.params
    ensures ExtractTopicIdFromUrl(routeFor, url) == Some(0)
  {
  }
}
