/** `getSignals` in mock mode: a page of the fixed signal list, cut out by
    `slice` between `(page - 1) * limit` and `page * limit`. */
module Signals {
  import opened Types

  /** `Array.prototype.slice(start, end)` for non-negative arguments: both ends
      are clamped to the length, and an empty range gives an empty list. */
  function Slice<T>(s: seq<T>, start: nat, end: nat): (r: seq<T>)
    ensures |r| == Max(0, Min(end, |s|) - Min(start, |s|))
    ensures forall k :: 0 <= k < |r| ==> r[k] == s[start + k]
  {
    if start < end && start < |s| then s[start..Min(end, |s|)] else []
  }

  /** The offset `(page - 1) * limit` at which page `page` starts; the page
      ends where the next one starts, at `page * limit`. */
  function PageStart(page: int, limit: int): (start: nat)
    requires page >= 1 && limit >= 0
    ensures start == (page - 1) * limit
    ensures start + limit == page * limit
  {
    (page - 1) * limit
  }

  /** The mock-mode response of `getSignals(page, limit)` over the signal list. */
  function GetSignals(signals: seq<Signal>, page: int, limit: int): (r: PaginatedResponse<Signal>)
    requires page >= 1 && limit >= 0
    ensures r.total == |signals| && r.page == page && r.limit == limit
    ensures |r.data| == Min(limit, Max(0, |signals| - PageStart(page, limit)))
    ensures forall k :: 0 <= k < |r.data| ==> r.data[k] == signals[PageStart(page, limit) + k]
    ensures r.hasMore <==> page * limit < |signals|
  {
    var startIndex := PageStart(page, limit);
    var endIndex := startIndex + limit;
    PaginatedResponse(Slice(signals, startIndex, endIndex), |signals|, page, limit,
                      endIndex < |signals|)
  }

  /** Every signal is on page `i / limit + 1`, at position `i % limit`. */
  lemma SignalOnItsPage(signals: seq<Signal>, limit: int, i: nat)
    requires limit > 0 && i < |signals|
    ensures var p := GetSignals(signals, i / limit + 1, limit);
            i % limit < |p.data| && p.data[i % limit] == signals[i]
  {
  }

  /** For a positive limit, `hasMore` says exactly whether the next page has
      anything on it. */
  lemma HasMoreIffNextPageNonEmpty(signals: seq<Signal>, page: int, limit: int)
    requires page >= 1 && limit > 0
    ensures GetSignals(signals, page, limit).hasMore <==>
            |GetSignals(signals, page + 1, limit).data| > 0
  {
  }

  /** With limit 0 every page is empty, yet `hasMore` holds on every page of a
      non-empty list: a client that pages while `hasMore` holds never stops. */
  lemma ZeroLimitHasMoreForever(signals: seq<Signal>, page: int)
    requires page >= 1
    ensures GetSignals(signals, page, 0).data == []
    ensures GetSignals(signals, page, 0).hasMore <==> |signals| > 0
    ensures GetSignals(signals, page, 0).hasMore ==> GetSignals(signals, page + 1, 0).hasMore
  {
  }

  /** A slice that starts where a prefix ends extends that prefix. */
  lemma SliceExtendsPrefix<T>(s: seq<T>, start: nat, count: nat)
    ensures s[..Min(start, |s|)] + Slice(s, start, start + count) == s[..Min(start + count, |s|)]
  {
  }

  /** The first `k` pages, one after another. */
  function FirstPages(signals: seq<Signal>, k: nat, limit: nat): seq<Signal>
  {
    if k == 0 then [] else FirstPages(signals, k - 1, limit) + GetSignals(signals, k, limit).data
  }

  /** Reading pages 1 to `k` in turn yields everything before the start of
      page `k + 1`, each signal once and in order: pages neither overlap nor
      leave gaps. */
  lemma {:induction false} FirstPagesArePrefix(signals: seq<Signal>, k: nat, limit: nat)
    ensures FirstPages(signals, k, limit) == signals[..Min(PageStart(k + 1, limit), |signals|)]
  {
    if k > 0 {
      FirstPagesArePrefix(signals, k - 1, limit);
      var start := PageStart(k, limit);
      assert PageStart(k + 1, limit) == start + limit;
      assert GetSignals(signals, k, limit).data == Slice(signals, start, start + limit);
      SliceExtendsPrefix(signals, start, limit);
    }
  }
}
