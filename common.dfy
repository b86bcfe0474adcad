/** Paging records shared by the services and routes. */
module Common {
  import opened Wrappers

  /** A page request: an optional cursor, a row limit and a direction. */
  datatype PageOption<T> = PageOption(offset: Option<T>, limit: nat, desc: bool)

  /** A page of results and the cursor of the next page, if there is one. */
  datatype Page<T, OT> = Page(items: seq<T>, nextPageOffset: Option<OT>)

  /** `PageOption::new`: the first page, with the given limit and direction. */
  function NewPageOption<T>(limit: nat, desc: bool): (p: PageOption<T>)
    ensures p.offset == None && p.limit == limit && p.desc == desc
  {
    PageOption(None, limit, desc)
  }

  /** `Page::empty`: no items and no further page. */
  function EmptyPage<T, OT>(): (p: Page<T, OT>)
    ensures |p.items| == 0 && p.nextPageOffset == None
  {
    Page([], None)
  }

  /** `Page::convert`: apply `f` to every item, keeping the cursor. */
  function Convert<T, R, OT>(p: Page<T, OT>, f: T -> R): (r: Page<R, OT>)
    ensures |r.items| == |p.items|
    ensures forall i :: 0 <= i < |p.items| ==> r.items[i] == f(p.items[i])
    ensures r.nextPageOffset == p.nextPageOffset
  {
    Page(seq(|p.items|, i requires 0 <= i < |p.items| => f(p.items[i])), p.nextPageOffset)
  }

  /** Converting with the identity changes nothing. */
  lemma ConvertIdentity<T, OT>(p: Page<T, OT>)
    ensures Convert(p, (x: T) => x) == p
  {
    assert Convert(p, (x: T) => x).items == p.items;
  }

  /** Converting twice is converting once with the composition. */
  lemma ConvertComposes<T, R, S, OT>(p: Page<T, OT>, f: T -> R, g: R -> S)
    ensures Convert(Convert(p, f), g) == Convert(p, (x: T) => g(f(x)))
  {
    assert Convert(Convert(p, f), g).items == Convert(p, (x: T) => g(f(x))).items;
  }
}
