/** The conversion of short item ids to long form, shared by the reader routes. */
module ReaderIds {
  import opened Text
  import opened Numbers
  import opened GReaderItem

  /** `convert_to_long_form_ids`: the long-form prefix before every id, in order. */
  function ConvertToLongFormIds(ids: seq<string>): (r: seq<string>)
    ensures |r| == |ids|
    ensures forall i :: 0 <= i < |ids| ==> r[i] == LongFormPrefix + ids[i]
  {
    seq(|ids|, i requires 0 <= i < |ids| => LongFormPrefix + ids[i])
  }

  /** A converted id decodes as the hex value of the original id, or `-1` if it is not one. */
  lemma ConvertedIdDecodes(ids: seq<string>, i: nat)
    requires i < |ids|
    ensures IdStrToI64(ConvertToLongFormIds(ids)[i]) == ParseInt(ids[i], 16).GetOr(-1)
  {
    StripPrefixOfConcat(LongFormPrefix, ids[i]);
  }

  /** Converting the hex digits of an id and decoding the result gives the id back. */
  lemma ConvertHexRoundTrip(n: nat)
    requires n <= I64Max
    ensures IdStrToI64(ConvertToLongFormIds([NatToDigits(n, 16)])[0]) == n
  {
    LongFormDecodes(n);
  }

  /** An id that is already in long form gets the prefix twice and decodes to `-1`. */
  lemma ConvertLongFormTwice(id: string)
    ensures IdStrToI64(ConvertToLongFormIds([LongFormPrefix + id])[0]) == -1
  {
    var hex := LongFormPrefix + id;
    ConvertedIdDecodes([hex], 0);
    assert hex[0] == 't';
    DigitsValueInvalid(hex, 16, 0);
  }
}
