/**
 * PagedResponseDto (DTO/PagedResponseDto.cs:3-12): one page of a listing with
 * the page arithmetic computed from the page number, the page size and the
 * total number of items.
 */
module Paging {

  /**
   * `(int)Math.Ceiling(a / (double)b)`: the least integer not below the exact
   * quotient. For 32-bit operands the double quotient is never rounded onto or
   * past an integer, so the ceiling of the exact quotient is what the code gets.
   */
  function CeilDiv(a: int, b: int): (r: int)
    requires b != 0
    ensures (r - 1) as real < a as real / b as real <= r as real
  {
    var q := a as real / b as real;
    if q.Floor as real == q then q.Floor else q.Floor + 1
  }

  datatype PagedResponse<T> = PagedResponse(data: seq<T>, pageNumber: int, pageSize: int, totalCount: int) {
    /** Line 9: the number of pages `totalCount` items fill. */
    function TotalPages(): (r: int)
      requires pageSize != 0
      ensures (r - 1) as real < totalCount as real / pageSize as real <= r as real
    {
      CeilDiv(totalCount, pageSize)
    }

    /** Line 10: for a positive page size, there is a previous page exactly when this page skips some items. */
    predicate HasPreviousPage()
      ensures pageSize > 0 ==> (HasPreviousPage() <==> (pageNumber - 1) * pageSize > 0)
    {
      pageNumber > 1
    }

    /** Line 11: there is a next page exactly when the page number is below the exact quotient `TotalCount / PageSize`. */
    predicate HasNextPage()
      requires pageSize != 0
      ensures HasNextPage() <==> pageNumber as real < totalCount as real / pageSize as real
    {
      pageNumber < TotalPages()
    }
  }

  lemma MultiplyBoth(x: real, y: real, z: real)
    requires x <= y && z > 0.0
    ensures x * z <= y * z
  {
  }

  lemma MultiplyBothStrict(x: real, y: real, z: real)
    requires x < y && z > 0.0
    ensures x * z < y * z
  {
  }

  lemma MultiplyInt(x: int, y: int, z: int)
    requires x <= y && z >= 0
    ensures x * z <= y * z
  {
  }

  /** For a positive divisor, the ceiling of a / b in integer terms: enough pages, and not one too many. */
  lemma CeilDivBounds(a: int, b: int)
    requires b > 0
    ensures CeilDiv(a, b) * b >= a
    ensures (CeilDiv(a, b) - 1) * b < a
  {
    var r := CeilDiv(a, b);
    var q := a as real / b as real;
    assert q * b as real == a as real;
    MultiplyBoth(q, r as real, b as real);
    MultiplyBothStrict((r - 1) as real, q, b as real);
    assert (r * b) as real == r as real * b as real;
    assert ((r - 1) * b) as real == (r - 1) as real * b as real;
    assert ((r - 1) * b) as real < a as real;
  }

  /** Line 9, for `PageSize > 0`: `TotalPages` is the number of pages of `PageSize` items that hold `TotalCount` items. */
  lemma TotalPagesBounds<T>(p: PagedResponse<T>)
    requires p.pageSize > 0
    ensures p.TotalPages() * p.pageSize >= p.totalCount
    ensures (p.TotalPages() - 1) * p.pageSize < p.totalCount
  {
    CeilDivBounds(p.totalCount, p.pageSize);
  }

  /** `TotalPages` is the only number of pages with both bounds: it is the integer ceiling of `TotalCount / PageSize`. */
  lemma TotalPagesIsCeiling<T>(p: PagedResponse<T>, n: int)
    requires p.pageSize > 0
    ensures n * p.pageSize >= p.totalCount && (n - 1) * p.pageSize < p.totalCount <==> n == p.TotalPages()
  {
    TotalPagesBounds(p);
  }

  /** Lines 9 and 11: with no items there are no pages, and no next page after any page from 0 on. */
  lemma NoItemsNoPages<T>(p: PagedResponse<T>)
    requires p.totalCount == 0 && p.pageSize != 0
    ensures p.TotalPages() == 0
    ensures p.pageNumber >= 0 ==> !p.HasNextPage()
  {
  }

  /** Lines 9 and 11: there is a next page exactly when the pages up to this one do not hold every item. */
  lemma HasNextPageIff<T>(p: PagedResponse<T>)
    requires p.pageSize > 0
    ensures p.HasNextPage() <==> p.totalCount > p.pageNumber * p.pageSize
  {
    TotalPagesBounds(p);
    var t := p.TotalPages();
    if p.pageNumber < t {
      MultiplyInt(p.pageNumber, t - 1, p.pageSize);
    } else {
      MultiplyInt(t, p.pageNumber, p.pageSize);
    }
  }
}
