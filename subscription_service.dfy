/**
 * The subscription service: converting stored subscriptions to the wire form
 * and back, building a subscription from a fetched feed, turning feed entries
 * into items, and the per-user loop that loads every fetched feed's items
 * into the item store.
 *
 * Fetching feeds is not modelled: the outcome of each fetch is given as a
 * value (`map<url, Result<Feed, Error>>`), and so is the current time.
 */
module SubscriptionService {
  import opened Wrappers
  import opened Text
  import opened Errors
  import Db = SubscriptionStore

  /** A label of a subscription on the wire: its stream id and its name (the source's `label` field; `label` is a Dafny keyword). */
  datatype Category = Category(id: string, name: string)

  /** The wire form of a subscription. */
  datatype Subscription = Subscription(
    id: string,
    title: string,
    description: string,
    categories: seq<Category>,
    url: string,
    feedUrl: string)

  /** The parts of a parsed feed that the service reads. */
  datatype Link = Link(href: string)
  datatype Content = Content(body: Option<string>)
  datatype Person = Person(name: string)
  datatype Entry = Entry(
    id: string,
    title: Option<string>,
    content: Option<Content>,
    authors: seq<Person>,
    links: seq<Link>,
    publishedMs: Option<int>)
  datatype Feed = Feed(
    title: Option<string>,
    description: Option<string>,
    links: seq<Link>,
    entries: seq<Entry>)

  /** The arguments of one `Item::new_item` call: one item to store. */
  datatype NewItem = NewItem(
    userId: string,
    subscriptionId: string,
    externalId: string,
    title: string,
    content: string,
    author: string,
    url: string,
    timestampMs: int)

  /** The stream id of a user's label. */
  function LabelId(userId: string, name: string): string {
    "user/" + userId + "/label/" + name
  }

  /** The labels of a list of categories, in order. */
  function Labels(categories: seq<Category>): (r: seq<string>)
    ensures |r| == |categories|
    ensures forall i :: 0 <= i < |r| ==> r[i] == categories[i].name
  {
    seq(|categories|, i requires 0 <= i < |categories| => categories[i].name)
  }

  /**
   * `From<db::Subscription>`: the stored fields, and one category per stored
   * label, in order, whose id is the user's stream id of that label.
   */
  function FromDb(d: Db.Subscription): (r: Subscription)
    ensures r.id == d.id && r.title == d.title && r.description == d.description
    ensures r.url == d.url && r.feedUrl == d.feedUrl
    ensures Labels(r.categories) == Db.Categories(d)
    ensures forall i :: 0 <= i < |r.categories| ==> r.categories[i].id == LabelId(d.userId, r.categories[i].name)
  {
    var labels := Db.Categories(d);
    var categories := seq(|labels|, i requires 0 <= i < |labels| => Category(LabelId(d.userId, labels[i]), labels[i]));
    Subscription(d.id, d.title, d.description, categories, d.url, d.feedUrl)
  }

  /** `Subscription::to_db`: the row of `userId`, labels comma-joined, never fetched. */
  function ToDb(s: Subscription, userId: string): (r: Db.Subscription)
    ensures r.userId == userId && r.id == s.id && r.url == s.url
    ensures r.title == s.title && r.description == s.description && r.feedUrl == s.feedUrl
    ensures r.lastFetchMs == 0
  {
    Db.Subscription(userId, s.id, s.url, s.title, s.description, s.feedUrl, Join(Labels(s.categories), ','), 0)
  }

  /** The stored row's labels are the subscription's comma-free labels, empty ones dropped. */
  lemma ToDbCategories(s: Subscription, userId: string)
    requires forall c :: c in s.categories ==> ',' !in c.name
    ensures Db.Categories(ToDb(s, userId)) == Db.NonEmptyLabels(Labels(s.categories))
  {
    var labels := Labels(s.categories);
    var joined := Join(labels, ',');
    Db.LabelsOfIsFilteredSplit(joined);
    if labels == [] {
      assert Split(joined, ',') == [""];
      assert Db.NonEmptyLabels([""]) == Db.NonEmptyLabels([""][..0]) + [];
    } else {
      forall l | l in labels ensures ',' !in l {
        var i :| 0 <= i < |labels| && labels[i] == l;
        assert s.categories[i] in s.categories;
      }
      SplitJoin(labels, ',');
    }
  }

  /** Storing a converted row keeps its labels, and forgets only when it was fetched. */
  lemma ToDbFromDb(d: Db.Subscription)
    ensures Db.Categories(ToDb(FromDb(d), d.userId)) == Db.Categories(d)
    ensures ToDb(FromDb(d), d.userId) == d.(joinedCategories := Join(Db.Categories(d), ','), lastFetchMs := 0)
  {
    Db.LabelsOfJoin(Db.Categories(d));
  }

  /**
   * Converting a wire subscription to a row and back gives it back, when its
   * labels are non-empty, comma-free and carry the user's stream ids.
   */
  lemma FromDbToDb(s: Subscription, userId: string)
    requires forall c :: c in s.categories ==> c.name != "" && ',' !in c.name && c.id == LabelId(userId, c.name)
    ensures FromDb(ToDb(s, userId)) == s
  {
    var labels := Labels(s.categories);
    assert forall l :: l in labels ==> l != "" && ',' !in l by {
      forall l | l in labels ensures l != "" && ',' !in l {
        var i :| 0 <= i < |labels| && labels[i] == l;
        assert s.categories[i] in s.categories;
      }
    }
    Db.LabelsOfJoin(labels);
    var r := FromDb(ToDb(s, userId));
    assert |r.categories| == |s.categories|;
    forall i | 0 <= i < |s.categories| ensures r.categories[i] == s.categories[i] {
      assert s.categories[i] in s.categories;
    }
  }

  /**
   * `Subscription::from_feed`: id `feed/<url>`, the feed's first link or else
   * the url itself, empty title and description when absent, no labels.
   */
  function FromFeed(url: string, feed: Feed): (r: Subscription)
    ensures r.id == "feed/" + url && r.feedUrl == url && r.categories == []
    ensures r.url == if feed.links == [] then url else feed.links[0].href
    ensures r.title == feed.title.GetOr("") && r.description == feed.description.GetOr("")
  {
    Subscription(
      "feed/" + url,
      feed.title.GetOr(""),
      feed.description.GetOr(""),
      [],
      if feed.links == [] then url else feed.links[0].href,
      url)
  }

  /** The id of a subscription built from a feed gives back its url, and its row has no labels. */
  lemma FromFeedId(url: string, feed: Feed, userId: string)
    ensures StripPrefix(FromFeed(url, feed).id, "feed/") == Some(url)
    ensures Db.Categories(ToDb(FromFeed(url, feed), userId)) == []
  {
    StripPrefixOfConcat("feed/", url);
  }

  /** Every entry has a link: `extract_items_from_feed` indexes `links[0]`. */
  predicate EntriesLinked(feed: Feed) {
    forall e :: e in feed.entries ==> e.links != []
  }

  /** The author names of an entry, in order. */
  function AuthorNames(e: Entry): (r: seq<string>)
    ensures |r| == |e.authors|
    ensures forall i :: 0 <= i < |r| ==> r[i] == e.authors[i].name
  {
    seq(|e.authors|, i requires 0 <= i < |e.authors| => e.authors[i].name)
  }

  /**
   * `extract_items_from_feed`: one item per entry, in entry order. Missing
   * titles and contents become empty, the authors are comma-joined, the url
   * is the entry's first link, and an unpublished entry is stamped `nowMs`.
   */
  function ExtractItemsFromFeed(userId: string, subscriptionId: string, feed: Feed, nowMs: int): (r: seq<NewItem>)
    requires EntriesLinked(feed)
    ensures |r| == |feed.entries|
    ensures forall i :: 0 <= i < |r| ==>
      var e := feed.entries[i];
      && r[i].userId == userId && r[i].subscriptionId == subscriptionId
      && r[i].externalId == e.id
      && r[i].title == e.title.GetOr("")
      && r[i].content == (if e.content.Some? then e.content.value.body.GetOr("") else "")
      && r[i].author == Join(AuthorNames(e), ',')
      && r[i].url == e.links[0].href
      && r[i].timestampMs == e.publishedMs.GetOr(nowMs)
  {
    seq(|feed.entries|, i requires 0 <= i < |feed.entries| =>
      var e := feed.entries[i];
      assert e in feed.entries;
      NewItem(
        userId,
        subscriptionId,
        e.id,
        e.title.GetOr(""),
        match e.content
        case Some(c) => c.body.GetOr("")
        case None => "",
        Join(AuthorNames(e), ','),
        e.links[0].href,
        e.publishedMs.GetOr(nowMs)))
  }

  /** The author field reads back as the entry's authors when their names are comma-free. */
  lemma ItemAuthors(userId: string, subscriptionId: string, feed: Feed, nowMs: int, i: nat)
    requires EntriesLinked(feed) && i < |feed.entries|
    requires feed.entries[i].authors != []
    requires forall p :: p in feed.entries[i].authors ==> ',' !in p.name
    ensures Split(ExtractItemsFromFeed(userId, subscriptionId, feed, nowMs)[i].author, ',') == AuthorNames(feed.entries[i])
  {
    var e := feed.entries[i];
    var names := AuthorNames(e);
    forall n | n in names ensures ',' !in n {
      var j :| 0 <= j < |names| && names[j] == n;
      assert e.authors[j] in e.authors;
    }
    SplitJoin(names, ',');
  }

  /** Every feed fetched successfully has links on all its entries. */
  predicate FetchedFeedsLinked(feeds: map<string, Result<Feed, Error>>) {
    forall url :: url in feeds && feeds[url].Ok? ==> EntriesLinked(feeds[url].value)
  }

  /** Whether the fetch of `s`'s feed succeeded. */
  predicate Fetched(s: Db.Subscription, feeds: map<string, Result<Feed, Error>>) {
    s.feedUrl in feeds && feeds[s.feedUrl].Ok?
  }

  /** The item batches of the subscriptions whose feed was fetched, in order. */
  function Batches(userId: string, subs: seq<Db.Subscription>, feeds: map<string, Result<Feed, Error>>, nowMs: int): seq<seq<NewItem>>
    requires FetchedFeedsLinked(feeds)
  {
    if subs == [] then []
    else
      var s := subs[0];
      (if Fetched(s, feeds) then [ExtractItemsFromFeed(userId, s.id, feeds[s.feedUrl].value, nowMs)] else [])
      + Batches(userId, subs[1..], feeds, nowMs)
  }

  /** Subscriptions whose fetch failed contribute no batch; the others one batch each, in order. */
  lemma {:induction false} BatchesOfFetched(userId: string, subs: seq<Db.Subscription>, feeds: map<string, Result<Feed, Error>>, nowMs: int)
    requires FetchedFeedsLinked(feeds)
    ensures (forall i :: 0 <= i < |subs| ==> !Fetched(subs[i], feeds)) ==> Batches(userId, subs, feeds, nowMs) == []
    ensures (forall i :: 0 <= i < |subs| ==> Fetched(subs[i], feeds)) ==>
      && |Batches(userId, subs, feeds, nowMs)| == |subs|
      && forall i :: 0 <= i < |subs| ==>
        Batches(userId, subs, feeds, nowMs)[i] == ExtractItemsFromFeed(userId, subs[i].id, feeds[subs[i].feedUrl].value, nowMs)
  {
    if subs != [] {
      BatchesOfFetched(userId, subs[1..], feeds, nowMs);
      assert forall i :: 1 <= i < |subs| ==> subs[i] == subs[1..][i - 1];
    }
  }

  /** Every batch is accepted. */
  predicate AllAccepted(batches: seq<seq<NewItem>>, accepts: seq<NewItem> -> bool) {
    forall i :: 0 <= i < |batches| ==> accepts(batches[i])
  }

  /**
   * The calls of a loop that stops at its first refused call: the accepted
   * prefix of `batches` and, if there is one, the refused batch.
   */
  function UntilRefused(batches: seq<seq<NewItem>>, accepts: seq<NewItem> -> bool): (r: seq<seq<NewItem>>)
    ensures |r| <= |batches| && r == batches[..|r|]
    ensures AllAccepted(batches, accepts) <==> r == batches && AllAccepted(r, accepts)
    ensures r != batches ==> r != [] && !accepts(r[|r| - 1]) && AllAccepted(r[..|r| - 1], accepts)
  {
    if batches == [] then []
    else if !accepts(batches[0]) then [batches[0]]
    else
      var rest := UntilRefused(batches[1..], accepts);
      assert AllAccepted(batches, accepts) <==> AllAccepted(batches[1..], accepts);
      assert batches[1..][..|rest|] == batches[1..|rest| + 1];
      [batches[0]] + rest
  }

  /**
   * The insert calls `load_subscription_items` makes for `subs`, one
   * subscription at a time: nothing for a failed fetch, and no further
   * call once one has been refused.
   */
  function LoadCalls(userId: string, subs: seq<Db.Subscription>, feeds: map<string, Result<Feed, Error>>, nowMs: int, accepts: seq<NewItem> -> bool): seq<seq<NewItem>>
    requires FetchedFeedsLinked(feeds)
  {
    if subs == [] then []
    else if !Fetched(subs[0], feeds) then LoadCalls(userId, subs[1..], feeds, nowMs, accepts)
    else
      var batch := ExtractItemsFromFeed(userId, subs[0].id, feeds[subs[0].feedUrl].value, nowMs);
      if accepts(batch) then [batch] + LoadCalls(userId, subs[1..], feeds, nowMs, accepts) else [batch]
  }

  /** The loop's calls are the fetched feeds' batches up to the first refused one. */
  lemma {:induction false} LoadCallsUntilRefused(userId: string, subs: seq<Db.Subscription>, feeds: map<string, Result<Feed, Error>>, nowMs: int, accepts: seq<NewItem> -> bool)
    requires FetchedFeedsLinked(feeds)
    ensures LoadCalls(userId, subs, feeds, nowMs, accepts) == UntilRefused(Batches(userId, subs, feeds, nowMs), accepts)
  {
    if subs != [] {
      LoadCallsUntilRefused(userId, subs[1..], feeds, nowMs, accepts);
      var rest := Batches(userId, subs[1..], feeds, nowMs);
      if Fetched(subs[0], feeds) {
        var batch := ExtractItemsFromFeed(userId, subs[0].id, feeds[subs[0].feedUrl].value, nowMs);
        assert Batches(userId, subs, feeds, nowMs) == [batch] + rest;
        assert ([batch] + rest)[1..] == rest;
      } else {
        assert Batches(userId, subs, feeds, nowMs) == rest;
      }
    }
  }

  /**
   * The item store as the service uses it: it records every `insert_items`
   * call, and `accepts` says which calls succeed.
   */
  class ItemSink {
    var batches: seq<seq<NewItem>>
    const accepts: seq<NewItem> -> bool

    constructor (accepts: seq<NewItem> -> bool)
      ensures batches == [] && this.accepts == accepts
    {
      batches := [];
      this.accepts := accepts;
    }

    /** `insert_items`: records the call; fails when the store refuses the batch. */
    method InsertItems(items: seq<NewItem>) returns (r: Result<(), Error>)
      modifies this
      ensures batches == old(batches) + [items]
      ensures r.Ok? <==> accepts(items)
    {
      batches := batches + [items];
      if accepts(items) {
        r := Ok(());
      } else {
        r := Err(Storage("insert_items failed"));
      }
    }
  }

  /** The subscription service over a subscription table and an item store. */
  class SubscriptionService {
    const repo: Db.SubscriptionRepository
    const items: ItemSink

    ghost predicate Valid()
      reads this, repo
    {
      repo.Valid()
    }

    constructor (repo: Db.SubscriptionRepository, items: ItemSink)
      requires repo.Valid()
      ensures Valid() && this.repo == repo && this.items == items
    {
      this.repo := repo;
      this.items := items;
    }

    /** `add_subscription`: stores the subscription as a row of `userId`. */
    method AddSubscription(userId: string, s: Subscription) returns (r: Result<(), Error>)
      requires Valid()
      modifies repo
      ensures Valid()
      ensures (userId, s.id) in old(repo.table) ==> r.Err? && repo.table == old(repo.table)
      ensures (userId, s.id) !in old(repo.table) ==> r.Ok? && repo.table == old(repo.table)[(userId, s.id) := ToDb(s, userId)]
    {
      r := repo.InsertSubscription(ToDb(s, userId));
    }

    /**
     * `add_subscription_from_url`: a failed fetch stores nothing; otherwise the
     * subscription built from the feed is stored, and returned if that worked.
     */
    method AddSubscriptionFromUrl(userId: string, url: string, fetched: Result<Feed, Error>) returns (r: Result<Subscription, Error>)
      requires Valid()
      modifies repo
      ensures Valid()
      ensures fetched.Err? ==> r == Err(fetched.error) && repo.table == old(repo.table)
      ensures fetched.Ok? && (userId, "feed/" + url) in old(repo.table) ==> r.Err? && repo.table == old(repo.table)
      ensures fetched.Ok? && (userId, "feed/" + url) !in old(repo.table) ==>
        && r == Ok(FromFeed(url, fetched.value))
        && repo.table == old(repo.table)[(userId, "feed/" + url) := ToDb(FromFeed(url, fetched.value), userId)]
    {
      if fetched.Err? {
        return Err(fetched.error);
      }
      var s := FromFeed(url, fetched.value);
      var added := AddSubscription(userId, s);
      if added.Err? {
        return Err(added.error);
      }
      r := Ok(s);
    }

    /** `remove_subscription`: the row is gone afterwards, present or not. */
    method RemoveSubscription(userId: string, id: string) returns (r: Result<(), Error>)
      requires Valid()
      modifies repo
      ensures Valid()
      ensures r.Ok? && repo.table == old(repo.table) - {(userId, id)}
    {
      r := repo.RemoveSubscription(userId, id);
    }

    /**
     * `list_subscriptions`: the user's rows, each converted to the wire form,
     * one element per row in the order the table lists them.
     */
    method ListSubscriptions(userId: string) returns (subs: seq<Subscription>)
      requires Valid()
      ensures exists rows :: (Db.UserRows(repo.table, userId, rows) && |subs| == |rows| &&
        forall i :: 0 <= i < |rows| ==> subs[i] == FromDb(rows[i]))
      ensures forall k :: k in repo.table && k.0 == userId ==> FromDb(repo.table[k]) in subs
      ensures forall s :: s in subs ==> exists k :: k in repo.table && k.0 == userId && s == FromDb(repo.table[k])
    {
      var rows := repo.ListUserSubscriptions(userId);
      subs := seq(|rows|, i requires 0 <= i < |rows| => FromDb(rows[i]));
      forall k | k in repo.table && k.0 == userId ensures FromDb(repo.table[k]) in subs {
        var i :| 0 <= i < |rows| && rows[i] == repo.table[k];
        assert subs[i] == FromDb(repo.table[k]);
      }
      forall s | s in subs ensures exists k :: k in repo.table && k.0 == userId && s == FromDb(repo.table[k]) {
        var i :| 0 <= i < |subs| && subs[i] == s;
        assert rows[i] in rows;
        var k := (rows[i].userId, rows[i].id);
        assert k in repo.table && k.0 == userId && s == FromDb(repo.table[k]);
      }
      assert Db.UserRows(repo.table, userId, rows);
    }

    /**
     * `load_subscription_items`: the user's subscriptions in the order the
     * table lists them, then the loop over them.
     */
    method LoadSubscriptionItems(userId: string, feeds: map<string, Result<Feed, Error>>, nowMs: int) returns (r: Result<(), Error>)
      requires Valid() && FetchedFeedsLinked(feeds)
      modifies items
      ensures exists subs ::
        && Db.UserRows(repo.table, userId, subs)
        && items.batches == old(items.batches) + UntilRefused(Batches(userId, subs, feeds, nowMs), items.accepts)
        && (r.Ok? <==> AllAccepted(Batches(userId, subs, feeds, nowMs), items.accepts))
    {
      var subs := repo.ListUserSubscriptions(userId);
      r := LoadItems(userId, subs, feeds, nowMs);
      LoadCallsUntilRefused(userId, subs, feeds, nowMs, items.accepts);
      assert Db.UserRows(repo.table, userId, subs);
    }

    /**
     * The loop of `load_subscription_items`: inserts the items of every
     * subscription whose feed was fetched, skips the others, and stops at
     * the first insert that fails, returning its error.
     */
    method LoadItems(userId: string, subs: seq<Db.Subscription>, feeds: map<string, Result<Feed, Error>>, nowMs: int) returns (r: Result<(), Error>)
      requires FetchedFeedsLinked(feeds)
      modifies items
      ensures items.batches == old(items.batches) + LoadCalls(userId, subs, feeds, nowMs, items.accepts)
      ensures r.Ok? <==> AllAccepted(Batches(userId, subs, feeds, nowMs), items.accepts)
    {
      var i := 0;
      while i < |subs|
        invariant 0 <= i <= |subs|
        invariant items.batches + LoadCalls(userId, subs[i..], feeds, nowMs, items.accepts)
          == old(items.batches) + LoadCalls(userId, subs, feeds, nowMs, items.accepts)
        invariant AllAccepted(Batches(userId, subs, feeds, nowMs), items.accepts)
          == AllAccepted(Batches(userId, subs[i..], feeds, nowMs), items.accepts)
      {
        var s := subs[i];
        assert subs[i..][1..] == subs[i + 1..];
        var rest := Batches(userId, subs[i + 1..], feeds, nowMs);
        if Fetched(s, feeds) {
          var batch := ExtractItemsFromFeed(userId, s.id, feeds[s.feedUrl].value, nowMs);
          assert Batches(userId, subs[i..], feeds, nowMs) == [batch] + rest;
          AllAcceptedCons(batch, rest, items.accepts);
          var inserted := items.InsertItems(batch);
          if inserted.Err? {
            return Err(inserted.error);
          }
        } else {
          assert Batches(userId, subs[i..], feeds, nowMs) == rest;
        }
        i := i + 1;
      }
      r := Ok(());
    }
  }

  lemma AllAcceptedCons(batch: seq<NewItem>, rest: seq<seq<NewItem>>, accepts: seq<NewItem> -> bool)
    ensures AllAccepted([batch] + rest, accepts) <==> accepts(batch) && AllAccepted(rest, accepts)
  {
    if accepts(batch) && AllAccepted(rest, accepts) {
      forall i | 0 <= i < |[batch] + rest| ensures accepts(([batch] + rest)[i]) {
        if i > 0 {
          assert ([batch] + rest)[i] == rest[i - 1];
        }
      }
    }
    if AllAccepted([batch] + rest, accepts) {
      assert ([batch] + rest)[0] == batch;
      forall i | 0 <= i < |rest| ensures accepts(rest[i]) {
        assert ([batch] + rest)[i + 1] == rest[i];
      }
    }
  }
}
