/**
 * UsersController.GetUsers (controllers/UsersController.cs:12-23): the query
 * parameters are defaulted and clamped before the user service is asked for
 * the page.
 */
module UsersController {
  import opened Wrappers
  import opened Paging
  import UserService

  /** Lines 15-16: the values of omitted query parameters. */
  const DefaultPageNumber: int := 1
  const DefaultPageSize: int := 5
  /** Line 19: the largest page size passed through. */
  const MaxPageSize: int := 100

  /** Line 18: a page number from 1; one already from 1 passes through. */
  function ClampedPageNumber(pageNumber: int): (r: int)
    ensures r >= 1
    ensures pageNumber >= 1 ==> r == pageNumber
  {
    if pageNumber < 1 then 1 else pageNumber
  }

  /** Line 19: a page size from 1 to 100; one already in that range passes through. */
  function ClampedPageSize(pageSize: int): (r: int)
    ensures 1 <= r <= MaxPageSize
    ensures 1 <= pageSize <= MaxPageSize ==> r == pageSize
  {
    if pageSize < 1 || pageSize > MaxPageSize then DefaultPageSize else pageSize
  }

  /**
   * Lines 18-19: the service gets a page number from 1 and a page size from 1
   * to 100; arguments in range pass through, a page number below 1 becomes 1,
   * and a page size out of range becomes 5 whichever side it is out on.
   */
  lemma ClampBounds(pageNumber: int, pageSize: int)
    ensures ClampedPageNumber(pageNumber) >= 1
    ensures 1 <= ClampedPageSize(pageSize) <= MaxPageSize
    ensures pageNumber >= 1 <==> ClampedPageNumber(pageNumber) == pageNumber
    ensures 1 <= pageSize <= MaxPageSize <==> ClampedPageSize(pageSize) == pageSize
    ensures pageNumber < 1 ==> ClampedPageNumber(pageNumber) == 1
    ensures (pageSize < 1 || pageSize > MaxPageSize) ==> ClampedPageSize(pageSize) == DefaultPageSize
  {
  }

  /** Lines 18-19: clamping a clamped value changes nothing. */
  lemma ClampIdempotent(pageNumber: int, pageSize: int)
    ensures ClampedPageNumber(ClampedPageNumber(pageNumber)) == ClampedPageNumber(pageNumber)
    ensures ClampedPageSize(ClampedPageSize(pageSize)) == ClampedPageSize(pageSize)
  {
  }

  /**
   * Lines 15-22: the page the service returns for the defaulted and clamped
   * arguments, for a caller the `Admin` role admits. `None` stands for an
   * omitted query parameter.
   */
  method GetUsers(users: seq<UserService.User>, pageNumberQuery: Option<int>, pageSizeQuery: Option<int>)
    returns (r: PagedResponse<UserService.UserListDto>)
    ensures r.pageNumber >= 1 && 1 <= r.pageSize <= MaxPageSize
    ensures r.pageNumber == ClampedPageNumber(pageNumberQuery.GetOr(DefaultPageNumber))
    ensures r.pageSize == ClampedPageSize(pageSizeQuery.GetOr(DefaultPageSize))
    ensures r == UserService.GetUsers(users, r.pageNumber, r.pageSize)
    ensures pageNumberQuery.None? && pageSizeQuery.None? ==> r.pageNumber == 1 && r.pageSize == 5
  {
    var pageNumber := pageNumberQuery.GetOr(DefaultPageNumber);
    var pageSize := pageSizeQuery.GetOr(DefaultPageSize);
    if pageNumber < 1 {
      pageNumber := 1;
    }
    if pageSize < 1 || pageSize > MaxPageSize {
      pageSize := DefaultPageSize;
    }
    r := UserService.GetUsers(users, pageNumber, pageSize);
  }
}
