/**
 * src/utils/pagination.ts: the page envelope and the parsing of the `page`
 * and `pageSize` query parameters.
 */
module Pagination {
  import opened Wrappers

  datatype Paginated<T> = Paginated(data: seq<T>, totalItems: nat, page: int, pageSize: int, totalPages: nat)

  datatype PageParams = PageParams(page: int, pageSize: int)

  /**
   * `Math.ceil(n / d)` for a positive divisor: the least number of pages of
   * size `d` that hold `n` items.
   */
  function CeilDiv(n: nat, d: nat): (r: nat)
    requires d > 0
    ensures r * d >= n
    ensures n > 0 ==> (r - 1) * d < n
    ensures n == 0 ==> r == 0
  {
    var q := n / d;
    var m := n % d;
    assert n == q * d + m;
    if m == 0 then q else q + 1
  }

  /** `paginate`: passes its inputs through and adds `totalPages`. */
  function Paginate<T>(data: seq<T>, totalItems: nat, page: int, pageSize: int): (r: Paginated<T>)
    requires pageSize > 0
    ensures r.data == data && r.totalItems == totalItems && r.page == page && r.pageSize == pageSize
    ensures r.totalPages * pageSize >= totalItems
    ensures totalItems > 0 ==> (r.totalPages - 1) * pageSize < totalItems
    ensures totalItems == 0 ==> r.totalPages == 0
  {
    Paginated(data, totalItems, page, pageSize, CeilDiv(totalItems, pageSize))
  }

  /**
   * `Number(x) || d`: an absent or unparsable parameter (None) and zero both
   * fall back to the default `d`.
   */
  function OrDefault(x: Option<int>, d: int): int {
    if x.Some? && x.value != 0 then x.value else d
  }

  /**
   * `getPaginationParams`: page = max(1, Number(page) || 1) and
   * pageSize = min(100, max(1, Number(pageSize) || 10)).
   */
  function GetPaginationParams(page: Option<int>, pageSize: Option<int>): (r: PageParams)
    ensures r.page >= 1
    ensures page.Some? && page.value >= 1 ==> r.page == page.value
    ensures page.None? || page.value < 1 ==> r.page == 1
    ensures 1 <= r.pageSize <= 100
    ensures pageSize.None? || pageSize.value == 0 ==> r.pageSize == 10
    ensures pageSize.Some? && pageSize.value < 0 ==> r.pageSize == 1
    ensures pageSize.Some? && 1 <= pageSize.value <= 100 ==> r.pageSize == pageSize.value
    ensures pageSize.Some? && pageSize.value > 100 ==> r.pageSize == 100
  {
    var p := OrDefault(page, 1);
    var s := OrDefault(pageSize, 10);
    PageParams(if p < 1 then 1 else p, if s < 1 then 1 else if s > 100 then 100 else s)
  }

  /** The worked examples: 25 items in pages of 10 make 3 pages, no items make none. */
  lemma TotalPagesExamples()
    ensures CeilDiv(25, 10) == 3
    ensures CeilDiv(0, 10) == 0
    ensures CeilDiv(20, 10) == 2
  {
  }
}
