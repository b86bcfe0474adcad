/**
 * The Google Reader subscription routes: the subscription-edit action
 * dispatch and the quick-add response. The subscription service calls are
 * returned as the calls to make; the edit action's service call is not
 * part of the model and is returned as such.
 */
module ReaderSubscriptions {
  import opened Wrappers
  import opened Text
  import opened SubscriptionService

  const FeedPrefix: string := "feed/"

  /** A call into the subscription service. */
  datatype SubscriptionCall =
    | AddSubscriptionFromUrl(userId: string, url: string)
    | RemoveSubscription(userId: string, id: string)
    | EditSubscription(userId: string, s: string, t: Option<string>, a: seq<string>, r: seq<string>)

  /**
   * `edit_subscription`: for a `feed/` stream, `subscribe` adds the feed
   * behind the prefix and `unsubscribe` removes the stream id itself; `edit`
   * is passed on whatever the stream; every other action does nothing. The
   * response is always `OK`, so only the calls are returned.
   */
  function Edit(userId: string, ac: string, s: string, t: Option<string>, a: seq<string>, r: seq<string>): (calls: seq<SubscriptionCall>)
    ensures |calls| <= 1
    ensures |calls| == 1 && calls[0].AddSubscriptionFromUrl? <==> ac == "subscribe" && StartsWith(s, FeedPrefix)
    ensures |calls| == 1 && calls[0].AddSubscriptionFromUrl? ==> calls[0].userId == userId && FeedPrefix + calls[0].url == s
    ensures calls == [RemoveSubscription(userId, s)] <==> ac == "unsubscribe" && StartsWith(s, FeedPrefix)
    ensures calls == [EditSubscription(userId, s, t, a, r)] <==> ac == "edit"
    ensures calls == [] <==> !(ac == "edit" || ((ac == "subscribe" || ac == "unsubscribe") && StartsWith(s, FeedPrefix)))
  {
    var feedCalls :=
      match StripPrefix(s, FeedPrefix)
      case Some(feedUrl) =>
        if ac == "subscribe" then [AddSubscriptionFromUrl(userId, feedUrl)]
        else if ac == "unsubscribe" then [RemoveSubscription(userId, s)]
        else []
      case None => [];
    feedCalls + (if ac == "edit" then [EditSubscription(userId, s, t, a, r)] else [])
  }

  /**
   * Subscribing to the stream `feed/<url>` adds the feed at `url`, whose
   * subscription gets that stream as its id; unsubscribing from the stream
   * removes exactly that id.
   */
  lemma SubscribeThenUnsubscribe(userId: string, url: string, feed: Feed, t: Option<string>, a: seq<string>, r: seq<string>)
    ensures Edit(userId, "subscribe", FeedPrefix + url, t, a, r) == [AddSubscriptionFromUrl(userId, url)]
    ensures Edit(userId, "unsubscribe", FromFeed(url, feed).id, t, a, r) == [RemoveSubscription(userId, FromFeed(url, feed).id)]
    ensures FromFeed(url, feed).id == FeedPrefix + url
  {
    StripPrefixOfConcat(FeedPrefix, url);
  }

  /** The quick-add response. */
  datatype AddSubscriptionResponse = AddSubscriptionResponse(query: string, numResults: int, streamId: string)

  /** `add_subscription`: the query echoed, one result, and the added subscription's id. */
  function QuickAddResponse(quickadd: string, added: Subscription): (resp: AddSubscriptionResponse)
    ensures resp.query == quickadd && resp.numResults == 1 && resp.streamId == added.id
  {
    AddSubscriptionResponse(quickadd, 1, added.id)
  }

  /**
   * The stream id quick-add reports for a feed is the one the edit route
   * unsubscribes with.
   */
  lemma QuickAddStreamUnsubscribes(userId: string, url: string, feed: Feed)
    ensures QuickAddResponse(url, FromFeed(url, feed)).streamId == FeedPrefix + url
    ensures Edit(userId, "unsubscribe", QuickAddResponse(url, FromFeed(url, feed)).streamId, None, [], [])
      == [RemoveSubscription(userId, FromFeed(url, feed).id)]
  {
    SubscribeThenUnsubscribe(userId, url, feed, None, [], []);
  }
}
