/**
 * The Google Reader stream routes: which item-id listing a request asks for
 * and with which page options, the page-to-response conversion, and the
 * item-contents response, whose items are ordered newest first.
 *
 * The stream service that answers these requests is not part of the model:
 * the listing is returned as the call to make, and the looked-up contents
 * are a parameter.
 */
module ReaderStream {
  import opened Wrappers
  import opened Text
  import opened Common
  import opened ReaderIds
  import GReaderItem

  datatype FilterType = Unread | Starred | Read | All

  const StarredSuffix: string := "/state/com.google/starred"
  const ReadSuffix: string := "/state/com.google/read"

  /**
   * `FilterType::from_params`: the stream `s` decides first (starred before
   * read); otherwise an excluded read stream `xt` means unread items.
   */
  function FromParams(s: string, xt: Option<string>): (f: FilterType)
    ensures f == Starred <==> EndsWith(s, StarredSuffix)
    ensures f == Read <==> !EndsWith(s, StarredSuffix) && EndsWith(s, ReadSuffix)
    ensures f == Unread <==> !EndsWith(s, StarredSuffix) && !EndsWith(s, ReadSuffix) && xt.Some? && EndsWith(xt.value, ReadSuffix)
    ensures f == All <==> !EndsWith(s, StarredSuffix) && !EndsWith(s, ReadSuffix) && !(xt.Some? && EndsWith(xt.value, ReadSuffix))
  {
    if EndsWith(s, StarredSuffix) then Starred
    else if EndsWith(s, ReadSuffix) then Read
    else if xt.Some? && EndsWith(xt.value, ReadSuffix) then Unread
    else All
  }

  /** The query of the item-ids route. */
  datatype IdsQuery = IdsQuery(s: string, xt: Option<string>, n: Option<nat>, r: Option<string>, c: Option<string>)

  /** The page requested: `n` items (100 by default), oldest first only for `r=o`, from cursor `c`. */
  function QueryPageOption(q: IdsQuery): (p: PageOption<string>)
    ensures p.limit == q.n.GetOr(100)
    ensures !p.desc <==> q.r == Some("o")
    ensures p.offset == q.c
  {
    PageOption(q.c, q.n.GetOr(100), q.r.GetOr("") != "o")
  }

  /** The stream service call the item-ids route makes (the calls themselves are not modelled). */
  datatype IdsCall =
    | GetStarredItemIds(userId: string, page: PageOption<string>)
    | GetUnreadItemIds(userId: string, page: PageOption<string>)
    | GetReadItemIds(userId: string, page: PageOption<string>)
    | GetAllItemIds(userId: string, page: PageOption<string>)

  /** `get_item_ids`: the listing chosen by the filter, for the user, with the query's page. */
  function GetItemIds(userId: string, q: IdsQuery): (call: IdsCall)
    ensures call.userId == userId && call.page == QueryPageOption(q)
    ensures call.GetStarredItemIds? <==> FromParams(q.s, q.xt) == Starred
    ensures call.GetUnreadItemIds? <==> FromParams(q.s, q.xt) == Unread
    ensures call.GetReadItemIds? <==> FromParams(q.s, q.xt) == Read
    ensures call.GetAllItemIds? <==> FromParams(q.s, q.xt) == All
  {
    var page := QueryPageOption(q);
    match FromParams(q.s, q.xt)
    case Starred => GetStarredItemIds(userId, page)
    case Unread => GetUnreadItemIds(userId, page)
    case Read => GetReadItemIds(userId, page)
    case All => GetAllItemIds(userId, page)
  }

  /** The item-ids response. */
  datatype ItemIds<T> = ItemIds(itemRefs: seq<T>, continuation: Option<string>)

  /** `ItemIds::from`: the page's items and its next cursor. */
  function ItemIdsFrom<T>(page: Page<T, string>): (r: ItemIds<T>)
    ensures r.itemRefs == page.items && r.continuation == page.nextPageOffset
  {
    ItemIds(page.items, page.nextPageOffset)
  }

  /** An item in the contents response; only its publication time matters here. */
  datatype ItemContent = ItemContent(id: string, published: int)

  predicate NewestFirst(items: seq<ItemContent>) {
    forall i, j :: 0 <= i < j < |items| ==> items[i].published >= items[j].published
  }

  /** `x` placed before the first item of `items` that is not newer. */
  function InsertByPublished(x: ItemContent, items: seq<ItemContent>): (r: seq<ItemContent>)
    requires NewestFirst(items)
    ensures NewestFirst(r)
    ensures multiset(r) == multiset(items) + multiset{x}
    ensures r[0] == x || (items != [] && r[0] == items[0])
  {
    if items == [] || items[0].published <= x.published then [x] + items
    else
      var rest := InsertByPublished(x, items[1..]);
      assert items == [items[0]] + items[1..];
      assert rest[0] == x || rest[0] == items[1];
      NewestFirstCons(items[0], rest);
      [items[0]] + rest
  }

  /** An item no older than the head of a newest-first list can go in front of it. */
  lemma NewestFirstCons(x: ItemContent, items: seq<ItemContent>)
    requires NewestFirst(items)
    requires items == [] || x.published >= items[0].published
    ensures NewestFirst([x] + items)
  {
    var r := [x] + items;
    forall i, j | 0 <= i < j < |r|
      ensures r[i].published >= r[j].published
    {
      if i > 0 {
        assert r[i] == items[i - 1] && r[j] == items[j - 1];
      } else {
        assert r[j] == items[j - 1];
      }
    }
  }

  /** `sort_by(|a, b| b.published.cmp(&a.published))`: the same items, newest first. */
  function SortByPublished(items: seq<ItemContent>): (r: seq<ItemContent>)
    ensures NewestFirst(r)
    ensures multiset(r) == multiset(items)
  {
    if items == [] then []
    else
      assert items == [items[0]] + items[1..];
      InsertByPublished(items[0], SortByPublished(items[1..]))
  }

  /** Sorting what is already newest first changes nothing. */
  lemma {:induction false} SortNewestFirst(items: seq<ItemContent>)
    requires NewestFirst(items)
    ensures SortByPublished(items) == items
  {
    if items != [] {
      SortNewestFirst(items[1..]);
      assert items == [items[0]] + items[1..];
    }
  }

  /** The contents response. */
  datatype Contents = Contents(
    direction: string,
    id: string,
    title: string,
    description: string,
    updated: int,
    items: seq<ItemContent>)

  /** The long-form ids the contents route looks up, if the request names any. */
  function ContentsLookup(i: Option<seq<string>>): (r: Option<seq<string>>)
    ensures r.Some? <==> i.Some?
    ensures r.Some? ==> r.value == ConvertToLongFormIds(i.value)
  {
    match i
    case Some(ids) => Some(ConvertToLongFormIds(ids))
    case None => None
  }

  /**
   * `get_contents`: `found` is what the lookup of `ContentsLookup(i)`
   * returned, and `nowS` the clock reading. No ids mean no items; otherwise
   * the items found, newest first, in a left-to-right reading-list response.
   */
  function GetContents(i: Option<seq<string>>, found: seq<ItemContent>, nowS: int): (c: Contents)
    ensures c.direction == "ltr" && c.id == GReaderItem.ReadingList
    ensures c.title == "Reading List" && c.description == "Reading List"
    ensures c.updated == nowS
    ensures i.None? ==> c.items == []
    ensures i.Some? ==> multiset(c.items) == multiset(found)
    ensures NewestFirst(c.items)
  {
    var items := if i.Some? then found else [];
    Contents("ltr", GReaderItem.ReadingList, "Reading List", "Reading List", nowS, SortByPublished(items))
  }
}
