/**
 * The Google Reader tag-edit route: which state change a request asks for.
 * The stream service calls it chooses between are not part of the model;
 * the route's decision is returned as the call to make.
 */
module ReaderEdit {
  import opened Wrappers
  import opened ReaderIds
  import opened GReaderItem

  /** A state change of the stream service, on long-form item ids. */
  datatype TagCall =
    | MarkAsRead(userId: string, ids: seq<string>)
    | MarkAsStarred(userId: string, ids: seq<string>)
    | MarkAsUnread(userId: string, ids: seq<string>)
    | MarkAsUnstarred(userId: string, ids: seq<string>)

  /**
   * `edit_tag`: with item ids `i`, a tag to add `a` or else a tag to remove
   * `r`, at most one state change on the long-form ids. The response is
   * always `OK`, so only the call is returned.
   */
  function EditTag(userId: string, i: Option<seq<string>>, a: Option<string>, r: Option<string>): (call: Option<TagCall>)
    ensures i.None? ==> call.None?
    ensures call.Some? ==> call.value.userId == userId && call.value.ids == ConvertToLongFormIds(i.value)
    ensures call.Some? && call.value.MarkAsRead? <==> i.Some? && a == Some(ReadTag)
    ensures call.Some? && call.value.MarkAsStarred? <==> i.Some? && a == Some(StarredTag)
    ensures call.Some? && call.value.MarkAsUnread? <==> i.Some? && a.None? && r == Some(ReadTag)
    ensures call.Some? && call.value.MarkAsUnstarred? <==> i.Some? && a.None? && r == Some(StarredTag)
  {
    match i
    case None => None
    case Some(ids) =>
      var longIds := ConvertToLongFormIds(ids);
      match a
      case Some(toAdd) =>
        if toAdd == ReadTag then Some(MarkAsRead(userId, longIds))
        else if toAdd == StarredTag then Some(MarkAsStarred(userId, longIds))
        else None
      case None =>
        match r
        case Some(toRemove) =>
          if toRemove == ReadTag then Some(MarkAsUnread(userId, longIds))
          else if toRemove == StarredTag then Some(MarkAsUnstarred(userId, longIds))
          else None
        case None => None
  }

  /**
   * The tags the route acts on are the ones an item reports: `a` names a
   * tag an item has after the change, `r` one it loses.
   */
  lemma EditTagUsesItemTags(userId: string, ids: seq<string>, tag: string)
    ensures EditTag(userId, Some(ids), Some(tag), None).Some? <==>
      tag in Categories(Item(true, true)) && tag !in Categories(Item(false, false))
    ensures EditTag(userId, Some(ids), None, Some(tag)).Some? <==>
      tag in Categories(Item(true, true)) && tag !in Categories(Item(false, false))
  {
    var both := Categories(Item(true, true));
    var none := Categories(Item(false, false));
    assert both == [ReadingList, ReadTag, StarredTag];
    assert none == [ReadingList, FreshTag];
  }
}
