/**
 * The Google Reader view of an item: its state tags, and the decoding of
 * item ids, which arrive either in long form
 * (`tag:google.com,2005:reader/item/<hex>`) or as plain decimal numbers.
 */
module GReaderItem {
  import opened Wrappers
  import opened Text
  import opened Numbers

  const ReadingList: string := "user/-/state/com.google/reading-list"
  const ReadTag: string := "user/-/state/com.google/read"
  const FreshTag: string := "user/-/state/com.google/fresh"
  const StarredTag: string := "user/-/state/com.google/starred"

  /** The prefix of a long-form item id. */
  const LongFormPrefix: string := "tag:google.com,2005:reader/item/"

  /** The two flags of an item that its tags report. */
  datatype Item = Item(read: bool, starred: bool)

  /**
   * `Item::categories`: always in the reading list; read or else fresh;
   * starred when it is.
   */
  function Categories(item: Item): (r: seq<string>)
    ensures |r| == if item.starred then 3 else 2
    ensures r[0] == ReadingList
    ensures ReadTag in r <==> item.read
    ensures FreshTag in r <==> !item.read
    ensures StarredTag in r <==> item.starred
  {
    [ReadingList] + (if item.read then [ReadTag] else [FreshTag]) + (if item.starred then [StarredTag] else [])
  }

  /**
   * `Item::id_str_to_i64`: the hex value after the long-form prefix, or else
   * the decimal value of the whole id; `-1` when that does not parse.
   */
  function IdStrToI64(id: string): (r: int)
    ensures InI64(r)
    ensures StartsWith(id, LongFormPrefix) ==> r == ParseInt(id[|LongFormPrefix|..], 16).GetOr(-1)
    ensures !StartsWith(id, LongFormPrefix) ==> r == ParseInt(id, 10).GetOr(-1)
  {
    match StripPrefix(id, LongFormPrefix)
    case Some(hex) => ParseInt(hex, 16).GetOr(-1)
    case None => ParseInt(id, 10).GetOr(-1)
  }

  /** The tags tell the flags apart: an item's flags are recovered from its tags. */
  lemma CategoriesDetermineItem(a: Item, b: Item)
    requires Categories(a) == Categories(b)
    ensures a == b
  {
    assert a.read <==> ReadTag in Categories(a);
    assert a.starred <==> StarredTag in Categories(a);
  }

  /** A long-form id of the lower-case hex digits of `n` decodes to `n`. */
  lemma LongFormDecodes(n: nat)
    requires n <= I64Max
    ensures IdStrToI64(LongFormPrefix + NatToDigits(n, 16)) == n
  {
    StripPrefixOfConcat(LongFormPrefix, NatToDigits(n, 16));
    ParseHexDigits(n);
  }

  /** The decimal form of every `i64` decodes to itself. */
  lemma DecimalDecodes(n: int)
    requires InI64(n)
    ensures IdStrToI64(DecimalString(n)) == n
  {
    var s := DecimalString(n);
    assert LongFormPrefix[0] == 't';
    assert !StartsWith(s, LongFormPrefix);
    ParseDecimalString(n);
  }

  /** The id `-1` and an id that does not parse decode alike. */
  lemma SentinelIsAmbiguous()
    ensures IdStrToI64("-1") == -1
    ensures IdStrToI64("x") == -1
  {
    assert !StartsWith("-1", LongFormPrefix);
    assert !StartsWith("x", LongFormPrefix);
    assert "-1"[1..] == "1";
    assert "1"[..0] == [];
    assert DigitsValue("1", 10) == Some(1);
    assert DigitsValue("x", 10) == None by {
      DigitsValueInvalid("x", 10, 0);
    }
  }
}
