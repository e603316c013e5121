/** Offset pages over a finished list, as the path and impact endpoints return them. */
module Paging {
  datatype Page<T> = Page(items: seq<T>, truncated: bool, total: nat)

  function Max(a: int, b: int): (m: int)
    ensures a <= m && b <= m && (m == a || m == b)
  {
    if a < b then b else a
  }

  function Min(a: int, b: int): (m: int)
    ensures m <= a && m <= b && (m == a || m == b)
  {
    if a < b then a else b
  }

  /** The clamps applied to a request: a page holds between 1 and `maxRows` items and starts at 0 or later. */
  function PageOf<T>(all: seq<T>, limit: int, offset: int, maxRows: nat): Page<T>
    requires maxRows >= 1
  {
    var bounded := Max(1, Min(limit, maxRows));
    var start := Max(0, offset);
    var end := start + bounded;
    Page(all[Min(start, |all|)..Min(end, |all|)], |all| > end, |all|)
  }

  /** What a client collects by asking for the next page while the last one says it is truncated. */
  function Collect<T>(all: seq<T>, limit: int, offset: nat, maxRows: nat): seq<T>
    requires maxRows >= 1
    decreases |all| - offset
  {
    var page := PageOf(all, limit, offset, maxRows);
    if page.truncated then page.items + Collect(all, limit, offset + |page.items|, maxRows) else page.items
  }

  /** Successive pages concatenate to the rest of the list; `truncated` is false exactly on the page that ends it. */
  lemma {:induction false} PagesConcatenate<T>(all: seq<T>, limit: int, offset: nat, maxRows: nat)
    requires maxRows >= 1 && offset <= |all|
    ensures Collect(all, limit, offset, maxRows) == all[offset..]
    ensures
      var page := PageOf(all, limit, offset, maxRows);
      && (page.truncated <==> offset + |page.items| < |all|)
      && |page.items| <= maxRows && page.total == |all|
      && (offset < |all| ==> |page.items| > 0)
    decreases |all| - offset
  {
    PageShape(all, limit, offset, maxRows);
    hide PageOf;
    var page := PageOf(all, limit, offset, maxRows);
    if page.truncated {
      PagesConcatenate(all, limit, offset + |page.items|, maxRows);
      assert all[offset..] == page.items + all[offset + |page.items|..];
    }
  }

  lemma PageShape<T>(all: seq<T>, limit: int, offset: nat, maxRows: nat)
    requires maxRows >= 1 && offset <= |all|
    ensures
      var page := PageOf(all, limit, offset, maxRows);
      && (page.truncated <==> offset + |page.items| < |all|)
      && |page.items| <= maxRows && page.total == |all|
      && (offset < |all| ==> |page.items| > 0)
      && offset + |page.items| <= |all| && page.items == all[offset..offset + |page.items|]
  {
  }

  /** A page of at most `size` items: those from position `first` on, while there are any. */
  ghost predicate Cuts<T>(all: seq<T>, first: nat, size: nat, page: Page<T>) {
    && page.total == |all| && (page.truncated <==> first + size < |all|)
    && |page.items| == (if |all| <= first then 0 else if |all| < first + size then |all| - first else size)
    && forall k :: 0 <= k < |page.items| ==> first + k < |all| && page.items[k] == all[first + k]
  }

  /** The size is the limit where it lies between 1 and `maxRows`, and the offset counts from 0. */
  lemma PageExactly<T>(all: seq<T>, limit: int, offset: int, maxRows: nat)
    requires maxRows >= 1
    ensures
      var size := if limit < 1 then 1 else if limit < maxRows then limit else maxRows;
      Cuts(all, if offset < 0 then 0 else offset, size, PageOf(all, limit, offset, maxRows))
  {
  }
}
