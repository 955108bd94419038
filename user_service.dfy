/**
 * UserService.GetUsersAsync (Services/UserService.cs:9-32): one page of the
 * user list, ordered by email, each user reduced to id, email and role.
 */
module UserService {
  import opened Wrappers
  import opened Paging

  /** Models/User.cs: a row of the Users table; a role column left null reads as None. */
  datatype User = User(
    userId: int, email: string, passwordHash: string, roles: Option<string>,
    refreshToken: Option<string>, refreshTokenExpiryTime: Option<int>)

  /** DTO/PagedResponseDto.cs:14-19. */
  datatype UserListDto = UserListDto(userId: int, email: string, role: string)

  /** Ordinal string order: a proper prefix comes first, otherwise the first differing character decides. */
  predicate EmailLe(a: string, b: string) {
    |a| == 0 || (|b| > 0 && (a[0] < b[0] || (a[0] == b[0] && EmailLe(a[1..], b[1..]))))
  }

  lemma {:induction false} EmailLeTotal(a: string, b: string)
    ensures EmailLe(a, b) || EmailLe(b, a)
  {
    if |a| > 0 && |b| > 0 && a[0] == b[0] {
      EmailLeTotal(a[1..], b[1..]);
    }
  }

  lemma {:induction false} EmailLeTransitive(a: string, b: string, c: string)
    requires EmailLe(a, b) && EmailLe(b, c)
    ensures EmailLe(a, c)
  {
    if |a| > 0 && a[0] == b[0] && b[0] == c[0] {
      EmailLeTransitive(a[1..], b[1..], c[1..]);
    }
  }

  /** Every user is at or before every later one by email. */
  predicate SortedByEmail(us: seq<User>) {
    forall i, j :: 0 <= i < j < |us| ==> EmailLe(us[i].email, us[j].email)
  }

  /** `u` placed before the first user whose email comes strictly after its own. */
  function Insert(u: User, us: seq<User>): (r: seq<User>)
    ensures |r| == |us| + 1
    ensures multiset(r) == multiset(us) + multiset{u}
  {
    if |us| == 0 then [u]
    else if EmailLe(us[0].email, u.email) then
      assert us == [us[0]] + us[1..];
      [us[0]] + Insert(u, us[1..])
    else
      [u] + us
  }

  /** An email at or before every email in `us` and before `u`'s is at or before every email after the insertion. */
  lemma {:induction false} InsertKeepsLowerBound(e: string, u: User, us: seq<User>)
    requires forall k :: 0 <= k < |us| ==> EmailLe(e, us[k].email)
    requires EmailLe(e, u.email)
    ensures forall k :: 0 <= k < |us| + 1 ==> EmailLe(e, Insert(u, us)[k].email)
  {
    if |us| > 0 && EmailLe(us[0].email, u.email) {
      InsertKeepsLowerBound(e, u, us[1..]);
    }
  }

  lemma {:induction false} InsertSorted(u: User, us: seq<User>)
    requires SortedByEmail(us)
    ensures SortedByEmail(Insert(u, us))
  {
    var r := Insert(u, us);
    if |us| == 0 {
    } else if EmailLe(us[0].email, u.email) {
      InsertSorted(u, us[1..]);
      InsertKeepsLowerBound(us[0].email, u, us[1..]);
      assert r == [us[0]] + Insert(u, us[1..]);
      forall i, j | 0 <= i < j < |r|
        ensures EmailLe(r[i].email, r[j].email)
      {
        if i > 0 {
          assert r[i] == Insert(u, us[1..])[i - 1] && r[j] == Insert(u, us[1..])[j - 1];
        }
      }
    } else {
      EmailLeTotal(us[0].email, u.email);
      forall i, j | 0 <= i < j < |r|
        ensures EmailLe(r[i].email, r[j].email)
      {
        if i == 0 && j > 1 {
          EmailLeTransitive(u.email, us[0].email, us[j - 1].email);
        }
      }
    }
  }

  /** Line 14, `OrderBy(u => u.Email)`: the same users, ordered by email. */
  function OrderByEmail(us: seq<User>): (r: seq<User>)
    ensures SortedByEmail(r)
    ensures multiset(r) == multiset(us)
    ensures |r| == |us|
  {
    if |us| == 0 then []
    else
      assert us == [us[0]] + us[1..];
      InsertSorted(us[0], OrderByEmail(us[1..]));
      Insert(us[0], OrderByEmail(us[1..]))
  }

  /** Lines 17-22: id and email copied, the role null-coalesced to "User". */
  function ToDto(u: User): (r: UserListDto)
    ensures r.userId == u.userId && r.email == u.email
    ensures r.role == (if u.roles.Some? then u.roles.value else "User")
  {
    UserListDto(u.userId, u.email, u.roles.GetOr("User"))
  }

  /** `Skip(n)`: everything after the first `n` elements; a count not above 0 skips nothing. */
  function Skip<T>(s: seq<T>, n: int): (r: seq<T>)
    ensures n <= 0 ==> r == s
    ensures 0 <= n <= |s| ==> r == s[n..]
    ensures n >= |s| ==> r == []
  {
    if n <= 0 then s else if n >= |s| then [] else s[n..]
  }

  /** `Take(n)`: the first `n` elements, or all of them; a count not above 0 takes nothing. */
  function Take<T>(s: seq<T>, n: int): (r: seq<T>)
    ensures |r| <= |s| && |r| <= (if n <= 0 then 0 else n)
    ensures forall i :: 0 <= i < |r| ==> r[i] == s[i]
    ensures |r| == (if n <= 0 then 0 else if n < |s| then n else |s|)
  {
    if n <= 0 then [] else if n >= |s| then s else s[..n]
  }

  /** The index of the first item on page `pageNumber` (1-based) of `pageSize` items. */
  function PageOffset(pageNumber: int, pageSize: int): (r: int)
    ensures pageNumber >= 1 && pageSize >= 1 ==> r >= 0
  {
    (pageNumber - 1) * pageSize
  }

  /** `Skip(offset).Take(size)` for a non-negative offset and a positive size. */
  function Slice<T>(s: seq<T>, offset: int, size: int): (r: seq<T>)
    requires offset >= 0 && size >= 1
    ensures |r| == (if offset >= |s| then 0 else if |s| - offset < size then |s| - offset else size)
    ensures forall i :: 0 <= i < |r| ==> r[i] == s[offset + i]
  {
    Take(Skip(s, offset), size)
  }

  /** The ToDto of every element. */
  function ToDtos(us: seq<User>): (r: seq<UserListDto>)
    ensures |r| == |us|
    ensures forall i :: 0 <= i < |us| ==> r[i] == ToDto(us[i])
  {
    seq(|us|, i requires 0 <= i < |us| => ToDto(us[i]))
  }

  /**
   * Lines 11-31: the total count of users, and the page `pageNumber` of
   * `pageSize` users in email order, with the arguments echoed.
   */
  function GetUsers(users: seq<User>, pageNumber: int, pageSize: int): (r: PagedResponse<UserListDto>)
    ensures r.totalCount == |users| && r.pageNumber == pageNumber && r.pageSize == pageSize
    ensures |r.data| <= (if pageSize <= 0 then 0 else pageSize)
    ensures pageNumber >= 1 && pageSize >= 1 ==>
      && var offset := PageOffset(pageNumber, pageSize);
      && |r.data| == (if offset >= |users| then 0 else if |users| - offset < pageSize then |users| - offset else pageSize)
      && forall i :: 0 <= i < |r.data| ==> r.data[i] == ToDto(OrderByEmail(users)[offset + i])
  {
    var offset := PageOffset(pageNumber, pageSize);
    var page := Take(Skip(OrderByEmail(users), offset), pageSize);
    assert pageNumber >= 1 && pageSize >= 1 ==> page == Slice(OrderByEmail(users), offset, pageSize);
    PagedResponse(ToDtos(page), pageNumber, pageSize, |users|)
  }

  /** Lines 14-16: the items of a page are in email order. */
  lemma PageInEmailOrder(users: seq<User>, pageNumber: int, pageSize: int)
    requires pageNumber >= 1 && pageSize >= 1
    ensures var d := GetUsers(users, pageNumber, pageSize).data;
      forall i, j :: 0 <= i < j < |d| ==> EmailLe(d[i].email, d[j].email)
  {
    var d := GetUsers(users, pageNumber, pageSize).data;
    var sorted := OrderByEmail(users);
    var offset := PageOffset(pageNumber, pageSize);
    forall i, j | 0 <= i < j < |d|
      ensures EmailLe(d[i].email, d[j].email)
    {
      assert d[i] == ToDto(sorted[offset + i]) && d[j] == ToDto(sorted[offset + j]);
      assert EmailLe(sorted[offset + i].email, sorted[offset + j].email);
    }
  }

  /** Position `i` lies on page `i / pageSize + 1`, at `i % pageSize` items past the page's offset. */
  lemma PositionOnPage(i: int, pageSize: int)
    requires pageSize >= 1 && i >= 0
    ensures PageOffset(i / pageSize + 1, pageSize) + i % pageSize == i
    ensures 0 <= i % pageSize < pageSize
  {
  }

  /** The page holding position `i` is one of the `TotalPages` pages. */
  lemma PageOfPositionExists<T>(r: PagedResponse<T>, i: int, j: int)
    requires r.pageSize >= 1 && r.pageNumber >= 1 && 0 <= j && i == PageOffset(r.pageNumber, r.pageSize) + j
    requires i < r.totalCount
    ensures r.pageNumber <= r.TotalPages()
  {
    TotalPagesBounds(r);
    var t := r.TotalPages();
    if t < r.pageNumber {
      MultiplyInt(t, r.pageNumber - 1, r.pageSize);
    }
  }

  /** The user at position `i` is item `j` of page `pageNumber` when `i` is `j` places past that page's offset. */
  lemma UserAtPosition(users: seq<User>, pageNumber: int, pageSize: int, i: int, j: int)
    requires pageNumber >= 1 && 0 <= j < pageSize && i == PageOffset(pageNumber, pageSize) + j && i < |users|
    ensures var r := GetUsers(users, pageNumber, pageSize);
      && 1 <= r.pageNumber <= r.TotalPages()
      && j < |r.data|
      && r.data[j] == ToDto(OrderByEmail(users)[i])
  {
    var r := GetUsers(users, pageNumber, pageSize);
    PageOfPositionExists(r, i, j);
    ItemOnPage(users, pageNumber, pageSize, j);
    assert 1 <= r.pageNumber <= r.TotalPages();
  }

  /** Every user is on exactly one page: the user at position `i` of the email order is item `i % pageSize` of page `i / pageSize + 1`. */
  lemma UserOnItsPage(users: seq<User>, pageSize: int, i: int)
    requires pageSize >= 1 && 0 <= i < |users|
    ensures var r := GetUsers(users, i / pageSize + 1, pageSize);
      && 1 <= r.pageNumber <= r.TotalPages()
      && i % pageSize < |r.data|
      && r.data[i % pageSize] == ToDto(OrderByEmail(users)[i])
  {
    PositionOnPage(i, pageSize);
    UserAtPosition(users, i / pageSize + 1, pageSize, i, i % pageSize);
  }

  /** Item `j` of a page is the user `j` places past the page's offset, when there is one. */
  lemma ItemOnPage(users: seq<User>, pageNumber: int, pageSize: int, j: int)
    requires pageNumber >= 1 && 0 <= j < pageSize && PageOffset(pageNumber, pageSize) + j < |users|
    ensures j < |GetUsers(users, pageNumber, pageSize).data|
    ensures GetUsers(users, pageNumber, pageSize).data[j] == ToDto(OrderByEmail(users)[PageOffset(pageNumber, pageSize) + j])
  {
  }

  /** Lines 9-11 with 14-16: a next page exists exactly when the page after this one has users on it. */
  lemma HasNextIffNextPageNonEmpty(users: seq<User>, pageNumber: int, pageSize: int)
    requires pageNumber >= 1 && pageSize >= 1
    ensures GetUsers(users, pageNumber, pageSize).HasNextPage() <==> |GetUsers(users, pageNumber + 1, pageSize).data| > 0
  {
    HasNextPageIff(GetUsers(users, pageNumber, pageSize));
    assert PageOffset(pageNumber + 1, pageSize) == pageNumber * pageSize;
  }

  /** Line 10 with 14-16: a page that has a previous page and users on it follows a full page. */
  lemma PreviousPageIsFull(users: seq<User>, pageNumber: int, pageSize: int)
    requires pageNumber >= 1 && pageSize >= 1
    requires GetUsers(users, pageNumber, pageSize).HasPreviousPage()
    requires |GetUsers(users, pageNumber, pageSize).data| > 0
    ensures |GetUsers(users, pageNumber - 1, pageSize).data| == pageSize
  {
    assert PageOffset(pageNumber - 1, pageSize) + pageSize == PageOffset(pageNumber, pageSize);
  }

  /** A page that starts at or past the last user is empty. */
  lemma PageBeyondEndIsEmpty(users: seq<User>, pageNumber: int, pageSize: int)
    requires pageNumber >= 1 && pageSize >= 1
    requires (pageNumber - 1) * pageSize >= |users|
    ensures GetUsers(users, pageNumber, pageSize).data == []
  {
  }

  /** 32-bit two's complement wrap-around of C# `int` arithmetic. */
  function Wrap32(x: int): (r: int)
    ensures -0x8000_0000 <= r < 0x8000_0000
    ensures (r - x) % 0x1_0000_0000 == 0
  {
    var m := x % 0x1_0000_0000;
    if m >= 0x8000_0000 then m - 0x1_0000_0000 else m
  }

  /** Line 15 as written: `(pageNumber - 1) * pageSize` is computed in 32-bit `int` and wraps. */
  function PageOffsetAsWritten(pageNumber: int, pageSize: int): (r: int)
    ensures -0x8000_0000 <= r < 0x8000_0000
    ensures (r - PageOffset(pageNumber, pageSize)) % 0x1_0000_0000 == 0
    ensures -0x8000_0000 <= PageOffset(pageNumber, pageSize) < 0x8000_0000 ==> r == PageOffset(pageNumber, pageSize)
  {
    Wrap32((pageNumber - 1) * pageSize)
  }

  /** Lines 14-22 with the offset computed as written. */
  function GetUsersAsWritten(users: seq<User>, pageNumber: int, pageSize: int): (r: PagedResponse<UserListDto>)
    ensures r.totalCount == |users| && r.pageNumber == pageNumber && r.pageSize == pageSize
  {
    var page := Take(Skip(OrderByEmail(users), PageOffsetAsWritten(pageNumber, pageSize)), pageSize);
    PagedResponse(ToDtos(page), pageNumber, pageSize, |users|)
  }

  /** Below 2^31 the offset as written is the true offset, so the two listings agree. */
  lemma AsWrittenAgreesWhileOffsetFits(users: seq<User>, pageNumber: int, pageSize: int)
    requires pageNumber >= 1 && pageSize >= 1
    requires PageOffset(pageNumber, pageSize) < 0x8000_0000
    ensures GetUsersAsWritten(users, pageNumber, pageSize) == GetUsers(users, pageNumber, pageSize)
  {
    assert PageOffsetAsWritten(pageNumber, pageSize) == PageOffset(pageNumber, pageSize);
  }

  /**
   * The offset overflow: page 67108865 of 64 users starts at 2^32, which wraps to
   * 0, so any non-empty user list serves its first page where the true page is
   * empty. Both arguments pass the controller's clamp unchanged.
   */
  lemma OffsetOverflowServesFirstPage(users: seq<User>)
    requires 0 < |users| <= 0x7FFF_FFFF
    ensures PageOffset(67108865, 64) == 0x1_0000_0000
    ensures PageOffsetAsWritten(67108865, 64) == 0
    ensures GetUsers(users, 67108865, 64).data == []
    ensures GetUsersAsWritten(users, 67108865, 64).data == GetUsers(users, 1, 64).data != []
  {
    assert PageOffsetAsWritten(67108865, 64) == 0;
    assert GetUsers(users, 1, 64).data[0] == ToDto(OrderByEmail(users)[0]);
  }
}
