/**
 * `getAllVideos`: filter the videos collection by text and owner, sort it on
 * one key in the requested direction, then skip and limit to one page, and
 * report the page, the page size, the number of matching videos and the
 * number of pages.
 *
 * The collection is given in its natural order, and the sort field is given
 * as a key function. Ties keep the natural order.
 */
module Listing {
  import opened Wrappers
  import opened Schema
  import opened Text
  import opened Accounts

  /** The query parameters of the request, already read as integers where the handler parses them. */
  datatype ListRequest = ListRequest(
    page: Option<int>,
    limit: Option<int>,
    query: Option<string>,
    sortType: Option<string>,
    userId: Option<string>)

  datatype VideoPage = VideoPage(allVideos: seq<Video>, page: int, limit: int, totalVideos: nat, totalPages: nat)

  /** The owner condition of the match stage: none, or the id the username resolved to. */
  datatype OwnerFilter = AnyOwner | OwnedBy(id: UserId)

  const DefaultPage: int := 1
  const DefaultLimit: int := 10

  function Min(a: int, b: int): int {
    if a <= b then a else b
  }

  /** `sortType === "dsc" ? -1 : 1` */
  function SortOrder(sortType: Option<string>): (r: int)
    ensures r == -1 <==> sortType == Some("dsc")
    ensures r == 1 <==> sortType != Some("dsc")
  {
    if sortType == Some("dsc") then -1 else 1
  }

  /** `a` may precede `b`: ascending keys for order 1, descending for order -1. */
  predicate InOrder(key: Video -> int, order: int, a: Video, b: Video) {
    if order == -1 then key(a) >= key(b) else key(a) <= key(b)
  }

  predicate Sorted(s: seq<Video>, key: Video -> int, order: int) {
    forall i, j | 0 <= i < j < |s| :: InOrder(key, order, s[i], s[j])
  }

  /** The match stage: a video is kept when the text query (if any) and the owner (if any) both match. */
  predicate Keep(v: Video, query: Option<string>, owner: OwnerFilter) {
    && (!Truthy(query) || ContainsIgnoringCase(v.title, query.value) || ContainsIgnoringCase(v.description, query.value))
    && (owner.OwnedBy? ==> v.owner == owner.id)
  }

  /** The match stage, over the collection in its natural order. */
  function Filter(vs: seq<Video>, query: Option<string>, owner: OwnerFilter): (r: seq<Video>)
    ensures |r| <= |vs|
  {
    if vs == [] then []
    else (if Keep(vs[0], query, owner) then [vs[0]] else []) + Filter(vs[1..], query, owner)
  }

  /** The match stage keeps every matching video as often as it occurs, and no other video. */
  lemma {:induction false} FilterKeepsExactlyMatches(vs: seq<Video>, query: Option<string>, owner: OwnerFilter)
    ensures forall v :: multiset(Filter(vs, query, owner))[v] == if Keep(v, query, owner) then multiset(vs)[v] else 0
  {
    if vs != [] {
      FilterKeepsExactlyMatches(vs[1..], query, owner);
      assert vs == [vs[0]] + vs[1..];
    }
  }

  /** Puts `x` into a sorted sequence, before the first element it may precede. */
  function Insert(x: Video, s: seq<Video>, key: Video -> int, order: int): (r: seq<Video>)
    requires Sorted(s, key, order)
    ensures Sorted(r, key, order)
    ensures |r| == |s| + 1
    ensures forall k | 0 <= k < |r| :: r[k] == x || r[k] in s
    ensures multiset(r) == multiset(s) + multiset{x}
  {
    if s == [] || InOrder(key, order, x, s[0]) then
      [x] + s
    else
      var rest := Insert(x, s[1..], key, order);
      assert s == [s[0]] + s[1..];
      assert forall k | 0 <= k < |rest| :: InOrder(key, order, s[0], rest[k]) by {
        forall k | 0 <= k < |rest| ensures InOrder(key, order, s[0], rest[k]) {
          if rest[k] != x {
            var j :| 0 <= j < |s[1..]| && s[1..][j] == rest[k];
            assert s[j + 1] == rest[k];
          }
        }
      }
      [s[0]] + rest
  }

  /** The sort stage: a stable insertion sort on the key. */
  function SortBy(s: seq<Video>, key: Video -> int, order: int): (r: seq<Video>)
    ensures Sorted(r, key, order)
    ensures |r| == |s|
    ensures multiset(r) == multiset(s)
  {
    if s == [] then []
    else
      assert s == [s[0]] + s[1..];
      Insert(s[0], SortBy(s[1..], key, order), key, order)
  }

  /** The skip and limit stages. */
  function Slice(s: seq<Video>, skip: nat, limit: nat): seq<Video> {
    if skip >= |s| then [] else s[skip..skip + Min(limit, |s| - skip)]
  }

  lemma SliceIsWindow(s: seq<Video>, skip: nat, limit: nat)
    ensures |Slice(s, skip, limit)| == (if skip >= |s| then 0 else Min(limit, |s| - skip))
    ensures forall i | 0 <= i < |Slice(s, skip, limit)| :: Slice(s, skip, limit)[i] == s[skip + i]
  {
  }

  lemma MultiplyStep(n: nat, limit: int)
    requires n > 0 && limit > 0
    ensures (n - 1) * limit >= 0
    ensures n * limit == (n - 1) * limit + limit
  {
  }

  /** `Math.ceil(total / limit)`: the fewest pages of `limit` videos that hold `total` videos. */
  function TotalPages(total: nat, limit: int): (r: nat)
    requires limit > 0
    ensures r * limit >= total
    ensures r > 0 ==> (r - 1) * limit < total
  {
    var r := (total + limit - 1) / limit;
    assert r * limit + (total + limit - 1) % limit == total + limit - 1;
    r
  }

  /** The matched videos in the requested order, before skip and limit. */
  function Ordered(vs: seq<Video>, req: ListRequest, owner: OwnerFilter, key: Video -> int): (r: seq<Video>)
    ensures |r| == |Filter(vs, req.query, owner)|
  {
    SortBy(Filter(vs, req.query, owner), key, SortOrder(req.sortType))
  }

  /**
   * The skip and limit stages and the totals, over the matched videos in
   * order. A negative skip or a limit that is not positive is refused by the
   * aggregation, which fails the request.
   */
  function Paginate(all: seq<Video>, total: nat, page: int, limit: int): Result<VideoPage> {
    var skip := (page - 1) * limit;
    if skip < 0 || limit <= 0 then Failure(ServerError)
    else Success(VideoPage(Slice(all, skip, limit), page, limit, total, TotalPages(total, limit)))
  }

  /**
   * A page is served exactly when page and limit are both at least 1; it is
   * then the window [skip, skip + limit) of `all`, so it holds at most
   * `limit` videos.
   */
  lemma PaginateIsWindow(all: seq<Video>, total: nat, page: int, limit: int)
    ensures Paginate(all, total, page, limit).Success? <==> page >= 1 && limit >= 1
    ensures Paginate(all, total, page, limit).Success? ==>
      var p := Paginate(all, total, page, limit).value;
      var skip := (page - 1) * limit;
      && p.page == page && p.limit == limit && skip >= 0
      && p.totalVideos == total && p.totalPages == TotalPages(total, limit)
      && p.allVideos == Slice(all, skip, limit)
      && |p.allVideos| <= limit
      && |p.allVideos| == (if skip >= |all| then 0 else Min(limit, |all| - skip))
      && (forall i | 0 <= i < |p.allVideos| :: p.allVideos[i] == all[skip + i])
  {
    if limit >= 1 {
      if page >= 1 {
        MultiplyStep(page, limit);
        SliceIsWindow(all, (page - 1) * limit, limit);
      } else {
        assert (page - 1) * limit <= (page - 1) * 1;
      }
    }
  }

  /** The listing once the owner is resolved. */
  function ListVideos(vs: seq<Video>, req: ListRequest, owner: OwnerFilter, key: Video -> int): Result<VideoPage> {
    Paginate(Ordered(vs, req, owner, key), |Filter(vs, req.query, owner)|, req.page.GetOr(DefaultPage), req.limit.GetOr(DefaultLimit))
  }

  /** A page is listed exactly when page and limit are both at least 1. */
  lemma ListingSucceedsIff(vs: seq<Video>, req: ListRequest, owner: OwnerFilter, key: Video -> int)
    ensures ListVideos(vs, req, owner, key).Success? <==> req.page.GetOr(DefaultPage) >= 1 && req.limit.GetOr(DefaultLimit) >= 1
  {
    PaginateIsWindow(Ordered(vs, req, owner, key), |Filter(vs, req.query, owner)|, req.page.GetOr(DefaultPage), req.limit.GetOr(DefaultLimit));
  }

  /**
   * A listed page is the window [skip, skip + limit) of the matched videos in
   * order, so it holds at most `limit` videos, and the totals count every
   * matched video, before skip and limit.
   */
  lemma ListedPageIsWindow(vs: seq<Video>, req: ListRequest, owner: OwnerFilter, key: Video -> int)
    requires ListVideos(vs, req, owner, key).Success?
    ensures
      var p := ListVideos(vs, req, owner, key).value;
      var all := Ordered(vs, req, owner, key);
      var page := req.page.GetOr(DefaultPage);
      var limit := req.limit.GetOr(DefaultLimit);
      var skip := (page - 1) * limit;
      && p.page == page && p.limit == limit && skip >= 0
      && p.totalVideos == |Filter(vs, req.query, owner)| == |all|
      && p.totalPages == TotalPages(p.totalVideos, limit)
      && |p.allVideos| <= limit
      && |p.allVideos| == (if skip >= |all| then 0 else Min(limit, |all| - skip))
      && (forall i | 0 <= i < |p.allVideos| :: p.allVideos[i] == all[skip + i])
  {
    PaginateIsWindow(Ordered(vs, req, owner, key), |Filter(vs, req.query, owner)|, req.page.GetOr(DefaultPage), req.limit.GetOr(DefaultLimit));
  }

  /** Every listed video is in the collection and matches the filter, and the page is in the requested order. */
  lemma ListedVideosQualify(vs: seq<Video>, req: ListRequest, owner: OwnerFilter, key: Video -> int)
    requires ListVideos(vs, req, owner, key).Success?
    ensures
      var page := ListVideos(vs, req, owner, key).value.allVideos;
      && (forall v | v in page :: v in vs && Keep(v, req.query, owner))
      && Sorted(page, key, SortOrder(req.sortType))
  {
    var all := Ordered(vs, req, owner, key);
    var page := ListVideos(vs, req, owner, key).value.allVideos;
    ListedPageIsWindow(vs, req, owner, key);
    FilterKeepsExactlyMatches(vs, req.query, owner);
    forall v | v in page ensures v in vs && Keep(v, req.query, owner) {
      assert v in multiset(all);
    }
  }

  /** Without page and limit the first ten matched videos are listed. */
  lemma DefaultsListFirstTen(vs: seq<Video>, req: ListRequest, owner: OwnerFilter, key: Video -> int)
    requires req.page.None? && req.limit.None?
    ensures ListVideos(vs, req, owner, key).Success?
    ensures
      var p := ListVideos(vs, req, owner, key).value;
      var all := Ordered(vs, req, owner, key);
      p.page == 1 && p.limit == 10 && p.allVideos == all[..Min(10, |all|)]
  {
    PaginateIsWindow(Ordered(vs, req, owner, key), |Filter(vs, req.query, owner)|, 1, 10);
  }

  /** Pages 1 to n of the listing, one after another. */
  function Pages(vs: seq<Video>, req: ListRequest, owner: OwnerFilter, key: Video -> int, n: nat): seq<Video>
    requires req.limit.GetOr(DefaultLimit) > 0
  {
    if n == 0 then []
    else
      PageIsSlice(vs, req, owner, key, n);
      Pages(vs, req, owner, key, n - 1) + ListVideos(vs, req.(page := Some(n)), owner, key).value.allVideos
  }

  /** Page n lists the window that starts after the first n - 1 pages. */
  lemma PageIsSlice(vs: seq<Video>, req: ListRequest, owner: OwnerFilter, key: Video -> int, n: nat)
    requires n > 0 && req.limit.GetOr(DefaultLimit) > 0
    ensures
      var limit := req.limit.GetOr(DefaultLimit);
      && (n - 1) * limit >= 0
      && ListVideos(vs, req.(page := Some(n)), owner, key).Success?
      && ListVideos(vs, req.(page := Some(n)), owner, key).value.allVideos == Slice(Ordered(vs, req, owner, key), (n - 1) * limit, limit)
  {
    var req' := req.(page := Some(n));
    assert Ordered(vs, req', owner, key) == Ordered(vs, req, owner, key);
    PaginateIsWindow(Ordered(vs, req, owner, key), |Filter(vs, req.query, owner)|, n, req.limit.GetOr(DefaultLimit));
  }

  /** A prefix followed by the window right after it is the longer prefix. */
  lemma SliceExtendsPrefix(all: seq<Video>, skip: nat, limit: nat)
    ensures all[..Min(skip, |all|)] + Slice(all, skip, limit) == all[..Min(skip + limit, |all|)]
  {
  }

  /** Windows 1 to n of `all`, each `limit` long, one after another. */
  function Windows(all: seq<Video>, limit: nat, n: nat): seq<Video> {
    if n == 0 then [] else Windows(all, limit, n - 1) + Slice(all, (n - 1) * limit, limit)
  }

  /** The first n windows are the first n * limit elements. */
  lemma {:induction false} WindowsArePrefix(all: seq<Video>, limit: nat, n: nat)
    ensures Windows(all, limit, n) == all[..Min(n * limit, |all|)]
  {
    if n > 0 {
      WindowsArePrefix(all, limit, n - 1);
      SliceExtendsPrefix(all, (n - 1) * limit, limit);
      assert (n - 1) * limit + limit == n * limit;
    }
  }

  /** The pages the handler lists are those windows of the matched videos in order. */
  lemma {:induction false} PagesAreWindows(vs: seq<Video>, req: ListRequest, owner: OwnerFilter, key: Video -> int, n: nat)
    requires req.limit.GetOr(DefaultLimit) > 0
    ensures Pages(vs, req, owner, key, n) == Windows(Ordered(vs, req, owner, key), req.limit.GetOr(DefaultLimit), n)
  {
    if n > 0 {
      var all := Ordered(vs, req, owner, key);
      var limit: nat := req.limit.GetOr(DefaultLimit);
      PagesAreWindows(vs, req, owner, key, n - 1);
      PageIsSlice(vs, req, owner, key, n);
      var page := ListVideos(vs, req.(page := Some(n)), owner, key).value.allVideos;
      assert Pages(vs, req, owner, key, n) == Pages(vs, req, owner, key, n - 1) + page;
      assert Windows(all, limit, n) == Windows(all, limit, n - 1) + Slice(all, (n - 1) * limit, limit);
    }
  }

  /**
   * Pages 1 to totalPages, concatenated in order, reproduce every matched
   * video in the requested order: none is left out and none is repeated.
   */
  lemma {:induction false} PagesCoverListing(vs: seq<Video>, req: ListRequest, owner: OwnerFilter, key: Video -> int)
    requires req.limit.GetOr(DefaultLimit) > 0
    ensures
      var all := Ordered(vs, req, owner, key);
      Pages(vs, req, owner, key, TotalPages(|Filter(vs, req.query, owner)|, req.limit.GetOr(DefaultLimit))) == all
  {
    var all := Ordered(vs, req, owner, key);
    var matched := Filter(vs, req.query, owner);
    var limit := req.limit.GetOr(DefaultLimit);
    var n := TotalPages(|matched|, limit);
    PagesAreWindows(vs, req, owner, key, n);
    WindowsArePrefix(all, limit, n);
    assert Min(n * limit, |all|) == |all|;
  }

  /** Twelve matching videos, page 2 of 5: the sixth to the tenth in order, 12 in all, 3 pages. */
  lemma SecondPageOfTwelve(vs: seq<Video>, req: ListRequest, owner: OwnerFilter, key: Video -> int)
    requires req.page == Some(2) && req.limit == Some(5)
    requires |Filter(vs, req.query, owner)| == 12
    ensures ListVideos(vs, req, owner, key).Success?
    ensures
      var p := ListVideos(vs, req, owner, key).value;
      && p.allVideos == Ordered(vs, req, owner, key)[5..10]
      && p.totalVideos == 12 && p.totalPages == 3
  {
    ListedPageIsWindow(vs, req, owner, key);
  }

  /**
   * The handler: with a `userId`, the owner is first resolved from the
   * lowercased username, and an unknown username fails the request (the
   * handler reads `byUser[0]._id` without a guard).
   */
  method GetAllVideos(users: UserCollection, vs: seq<Video>, req: ListRequest, key: Video -> int)
    returns (r: Result<VideoPage>)
    ensures !Truthy(req.userId) ==> r == ListVideos(vs, req, AnyOwner, key)
    ensures Truthy(req.userId) && (forall id | id in users.users :: users.users[id].username != Lower(req.userId.value)) ==>
      r == Failure(ServerError)
    ensures Truthy(req.userId) && (exists id | id in users.users :: users.users[id].username == Lower(req.userId.value)) ==>
      exists id | id in users.users && users.users[id].username == Lower(req.userId.value) ::
        r == ListVideos(vs, req, OwnedBy(id), key)
  {
    var owner := AnyOwner;
    if Truthy(req.userId) {
      var byUser := users.FindByUsername(Lower(req.userId.value));
      if byUser.None? {
        // `byUser[0]._id` on an empty result.
        return Failure(ServerError);
      }
      owner := OwnedBy(byUser.value);
    }
    r := ListVideos(vs, req, owner, key);
  }
}
