/**
 * The browser client's reader state: the loaded items, the open item and
 * whether it is expanded, the next page's cursor, and the local marking of
 * items as read. Items are shared objects: the list holds references, and
 * marking an item read changes that object wherever it is listed.
 */
module ClientState {
  import opened Wrappers
  import opened Sequences
  import GReaderItem

  const ReadTag: string := "user/-/state/com.google/read"

  /** An item as the client holds it: its id and its (growing) list of tags. */
  class ClientItem {
    const id: string
    var categories: seq<string>

    constructor (id: string, categories: seq<string>)
      ensures this.id == id && this.categories == categories
    {
      this.id := id;
      this.categories := categories;
    }
  }

  /** A list of tags reports its item as read. */
  predicate HasReadTag(categories: seq<string>) {
    ReadTag in categories
  }

  /** The client's read test agrees with the server's tags for an item's `read` flag. */
  lemma ReadTagMatchesServer(read: bool, starred: bool)
    ensures HasReadTag(GReaderItem.Categories(GReaderItem.Item(read, starred))) <==> read
  {
  }

  /**
   * `isItemRead`: for an item whose tags are those the server reports, the
   * item's `read` flag.
   */
  predicate IsItemRead(item: ClientItem)
    reads item
    ensures forall read: bool, starred: bool ::
      item.categories == GReaderItem.Categories(GReaderItem.Item(read, starred)) ==> (IsItemRead(item) <==> read)
  {
    HasReadTag(item.categories)
  }

  /** The global `state` record. */
  class ReaderState {
    var login: bool
    var items: seq<ClientItem>
    var openItem: Option<ClientItem>
    var expandItem: bool
    var nextOffset: Option<string>
    var isLoadingNextPage: bool

    /** The initial state; `login` is whether a token cookie was found. */
    constructor (login: bool)
      ensures this.login == login && Initial()
    {
      this.login := login;
      items := [];
      openItem := None;
      expandItem := false;
      nextOffset := None;
      isLoadingNextPage := false;
    }

    /** Nothing loaded, nothing open, no page pending. */
    predicate Initial()
      reads this
    {
      items == [] && openItem == None && !expandItem && nextOffset == None && !isLoadingNextPage
    }

    /** `cleanUpState`: back to the initial state, still logged in or not. */
    method CleanUpState()
      modifies this
      ensures Initial() && login == old(login)
    {
      items := [];
      openItem := None;
      expandItem := false;
      nextOffset := None;
      isLoadingNextPage := false;
    }

    /** `addItems`: the new items after the loaded ones. */
    method AddItems(newItems: seq<ClientItem>)
      modifies this
      ensures items == old(items) + newItems
      ensures login == old(login) && openItem == old(openItem) && expandItem == old(expandItem)
      ensures nextOffset == old(nextOffset) && isLoadingNextPage == old(isLoadingNextPage)
    {
      items := items + newItems;
    }

    /**
     * `isItemOpen`: compares ids, not objects, so every item carrying the
     * open item's id counts as open (`OpenDependsOnId`), and nothing is open
     * without an open item, nor any item whose id is not the open one's.
     */
    predicate IsItemOpen(item: ClientItem)
      reads this
      ensures IsItemOpen(item) ==> openItem.Some? && openItem.value.id == item.id
    {
      openItem.Some? && openItem.value.id == item.id
    }

    /** `isItemExpand`: only the open item can be expanded. */
    predicate IsItemExpand(item: ClientItem)
      reads this
      ensures IsItemExpand(item) ==> IsItemOpen(item)
      ensures IsItemExpand(item) <==> IsItemOpen(item) && expandItem
    {
      IsItemOpen(item) && expandItem
    }

    /**
     * `itemsUntil`: the loaded items up to and including the first
     * occurrence of `item`; none when it is not loaded.
     */
    function ItemsUntil(item: ClientItem): (r: seq<ClientItem>)
      reads this
      ensures |r| <= |items|
      ensures item !in items ==> r == []
      ensures item in items ==> |r| > 0 && r == items[..|r|] && r[|r| - 1] == item && item !in r[..|r| - 1]
    {
      items[..IndexOf(items, item) + 1]
    }

    /** `indexOfOpenItem`: where the open item is loaded, or -1. */
    function IndexOfOpenItem(): (r: int)
      reads this
      ensures -1 <= r < |items|
      ensures openItem.None? ==> r == -1
      ensures openItem.Some? ==> (r == -1 <==> openItem.value !in items)
      ensures r >= 0 ==> openItem.Some? && items[r] == openItem.value && openItem.value !in items[..r]
    {
      match openItem
      case Some(item) => IndexOf(items, item)
      case None => -1
    }

    /** Two items with one id are open together. */
    lemma OpenDependsOnId(a: ClientItem, b: ClientItem)
      requires a.id == b.id
      ensures IsItemOpen(a) <==> IsItemOpen(b)
    {
    }

    /**
     * The identity search of `indexOfOpenItem` and the id test of
     * `isItemOpen` agree on what they find: the open item is open, a loaded
     * item at the found index is open, and the open item, when loaded, is
     * found.
     */
    lemma OpenItemFound()
      ensures openItem.Some? ==> IsItemOpen(openItem.value)
      ensures IndexOfOpenItem() >= 0 ==> IsItemOpen(items[IndexOfOpenItem()])
      ensures openItem.Some? && openItem.value in items ==> IndexOfOpenItem() >= 0
    {
      var r := IndexOfOpenItem();
      if r >= 0 {
        assert items[r] == openItem.value;
      }
    }
  }

  /**
   * `markAsItemAsReadLocally`: the read tag pushed onto each listed item, once
   * per time it is listed, even if it is already there.
   */
  method MarkAsItemAsReadLocally(items: seq<ClientItem>)
    modifies set x | x in items
    ensures forall x :: x in items ==> x.categories == old(x.categories) + Repeat(ReadTag, Count(items, x))
    ensures forall x :: x in items ==> IsItemRead(x)
  {
    for i := 0 to |items|
      invariant forall x :: x in items ==> x.categories == old(x.categories) + Repeat(ReadTag, Count(items[..i], x))
    {
      var item := items[i];
      assert items[..i + 1] == items[..i] + [item];
      assert items[..i + 1][..i] == items[..i];
      item.categories := item.categories + [ReadTag];
    }
    assert items[..|items|] == items;
    forall x | x in items ensures IsItemRead(x) {
      var n := Count(items, x);
      assert x.categories[|x.categories| - 1] == Repeat(ReadTag, n)[n - 1];
    }
  }
}
