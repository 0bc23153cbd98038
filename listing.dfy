/**
 * `GET /stores` (backend/src/routes/stores.js): filter by a case-insensitive search on name or
 * address, order by one column, cut one page out of the ordered list, and annotate each store
 * with its average rating and the requester's own score.
 */
module Listing {
  import opened Wrappers
  import opened Text
  import Sorting
  import Auth
  import opened Tables
  import opened Ratings

  /** The query string; an absent parameter is `None` and takes its default. */
  datatype ListQuery = ListQuery(search: Option<string>, page: Option<int>, limit: Option<int>,
                                 sort: Option<string>, order: Option<string>)

  /** The columns the listing can be ordered by. */
  datatype SortField = ById | ByName | ByAddress

  datatype Direction = Asc | Desc

  /** A store as the listing returns it: the row plus `avgRating` (hundredths) and `userRating`. */
  datatype StoreView = StoreView(store: Store, avgRating: Option<int>, userRating: Option<int>)

  function ParseSort(sort: string): Option<SortField>
  {
    if sort == "id" then Some(ById)
    else if sort == "name" then Some(ByName)
    else if sort == "address" then Some(ByAddress)
    else None
  }

  function ParseOrder(order: string): Option<Direction>
  {
    if order == "asc" then Some(Asc) else if order == "desc" then Some(Desc) else None
  }

  // ---------------------------------------------------------------------------
  // Paging

  /** `take = Math.min(limit, 100)`: never more than 100, never raised towards any lower bound. */
  function PageSize(limit: int): (take: int)
    ensures take <= 100 && take <= limit
    ensures take == limit || take == 100
  {
    if limit < 100 then limit else 100
  }

  /** `skip = (page - 1) * take`. */
  function Offset(page: int, take: int): int
  {
    (page - 1) * take
  }

  function Min(a: int, b: int): int { if a <= b then a else b }
  function Max(a: int, b: int): int { if a <= b then b else a }

  /**
   * The rows a `findMany({ skip, take })` returns from an ordered list: `take` rows from position
   * `skip` for a non-negative `take`, and for a negative `take` the last `-take` rows before the
   * final `skip` rows.
   */
  function Window<T>(xs: seq<T>, skip: nat, take: int): (r: seq<T>)
    ensures take >= 0 ==> |r| == Min(take, Max(0, |xs| - skip))
    ensures take >= 0 ==> forall i :: 0 <= i < |r| ==> skip + i < |xs| && r[i] == xs[skip + i]
    ensures take < 0 ==> |r| == Min(-take, Max(0, |xs| - skip))
    ensures take < 0 ==> forall i :: 0 <= i < |r| ==> r[i] == xs[|xs| - skip - |r| + i]
    ensures forall x :: x in r ==> x in xs
  {
    var n := |xs|;
    if take >= 0 then xs[Min(skip, n)..Min(skip + take, n)]
    else xs[Max(n - skip + take, 0)..Max(n - skip, 0)]
  }

  /** Pages `p` and `p + 1` of the same size are consecutive, non-overlapping stretches of the ordered list. */
  lemma PagesAdjacent<T>(xs: seq<T>, page: int, take: int)
    requires page >= 1 && take >= 0
    ensures Offset(page, take) >= 0 && Offset(page + 1, take) == Offset(page, take) + take
    ensures Window(xs, Offset(page, take), take) + Window(xs, Offset(page + 1, take), take)
            == xs[Min(Offset(page, take), |xs|)..Min(Offset(page, take) + 2 * take, |xs|)]
  {
    var skip := Offset(page, take);
    assert skip >= 0 by { NonNegativeProduct(page - 1, take); }
    assert Offset(page + 1, take) == skip + take;
  }

  lemma NonNegativeProduct(a: int, b: int)
    requires a >= 0 && b >= 0
    ensures a * b >= 0
  {
  }

  /** When the ordered list holds no duplicates (store ids are unique), two consecutive pages share no store. */
  lemma PagesDisjoint<T>(xs: seq<T>, page: int, take: int)
    requires page >= 1 && take >= 0
    requires forall i, j :: 0 <= i < j < |xs| ==> xs[i] != xs[j]
    ensures forall x :: x in Window(xs, Offset(page, take), take) ==> x !in Window(xs, Offset(page + 1, take), take)
  {
    PagesAdjacent(xs, page, take);
    var skip := Offset(page, take);
    var a, b := Window(xs, skip, take), Window(xs, skip + take, take);
    forall x | x in a
      ensures x !in b
    {
      var i :| 0 <= i < |a| && a[i] == x;
      assert x == xs[skip + i];
    }
  }

  // ---------------------------------------------------------------------------
  // Search

  /** `where: search ? { OR: [name contains, address contains] } : {}`, both case-insensitive. */
  predicate Matches(s: Store, search: string)
  {
    search == "" || ContainsInsensitive(s.name, search) || ContainsInsensitive(s.address, search)
  }

  function FilterStores(stores: seq<Store>, search: string): (r: seq<Store>)
    ensures forall x :: x in r <==> x in stores && Matches(x, search)
    ensures forall x :: multiset(r)[x] == if Matches(x, search) then multiset(stores)[x] else 0
    ensures |r| <= |stores|
  {
    if stores == [] then []
    else
      assert stores == [stores[0]] + stores[1..];
      (if Matches(stores[0], search) then [stores[0]] else []) + FilterStores(stores[1..], search)
  }

  /** An empty search keeps every store, in table order. */
  lemma {:induction false} EmptySearchKeepsAll(stores: seq<Store>)
    ensures FilterStores(stores, "") == stores
  {
    if stores != [] {
      EmptySearchKeepsAll(stores[1..]);
      assert [stores[0]] + stores[1..] == stores;
    }
  }

  /** A non-empty search keeps a store exactly when the lower-cased search occurs in its lower-cased name or address. */
  lemma SearchIsSubstring(s: Store, search: string)
    requires search != ""
    ensures Matches(s, search) <==>
              (exists i :: OccursAt(Lower(s.name), Lower(search), i))
              || (exists i :: OccursAt(Lower(s.address), Lower(search), i))
  {
    ContainsIff(Lower(s.name), Lower(search));
    ContainsIff(Lower(s.address), Lower(search));
  }

  // ---------------------------------------------------------------------------
  // Ordering

  function KeyLeq(field: SortField, a: Store, b: Store): bool
  {
    match field
    case ById => a.id <= b.id
    case ByName => LexLeq(a.name, b.name)
    case ByAddress => LexLeq(a.address, b.address)
  }

  /** `orderBy: { [sort]: order }`: `a` may come before `b`. */
  function Before(field: SortField, dir: Direction, a: Store, b: Store): bool
  {
    if dir == Asc then KeyLeq(field, a, b) else KeyLeq(field, b, a)
  }

  lemma BeforeTotal(field: SortField, dir: Direction)
    ensures Sorting.Total((a, b) => Before(field, dir, a, b))
  {
    forall a: Store, b: Store
      ensures Before(field, dir, a, b) || Before(field, dir, b, a)
    {
      LexLeqTotal(a.name, b.name);
      LexLeqTotal(a.address, b.address);
    }
  }

  /** The matching stores in the requested order: exactly the matching stores, each once per row. */
  function SortedMatches(stores: seq<Store>, search: string, field: SortField, dir: Direction): (r: seq<Store>)
    ensures multiset(r) == multiset(FilterStores(stores, search))
    ensures forall i :: 0 < i < |r| ==> Before(field, dir, r[i - 1], r[i])
  {
    BeforeTotal(field, dir);
    Sorting.SortBy(FilterStores(stores, search), (a, b) => Before(field, dir, a, b))
  }

  // ---------------------------------------------------------------------------
  // Annotation

  /** `userRating`: the requester's own score for the store, `null` without a requester or a row. */
  function UserRating(ratings: seq<Rating>, user: Option<Auth.Claim>, storeId: int): Option<int>
  {
    if user.None? then None else ScoreOf(ratings, user.value.id, storeId)
  }

  /** `userRating` is null without a requester or without their row, and otherwise the score on their row. */
  lemma UserRatingIsOwnScore(ratings: seq<Rating>, user: Option<Auth.Claim>, storeId: int)
    requires UniqueKeys(ratings)
    ensures UserRating(ratings, user, storeId).None? <==>
              user.None? || forall x :: x in ratings ==> !HasKey(x, user.value.id, storeId)
    ensures forall x :: x in ratings && user.Some? && HasKey(x, user.value.id, storeId) ==>
              UserRating(ratings, user, storeId) == Some(x.score)
  {
    if user.Some? {
      forall x | x in ratings && HasKey(x, user.value.id, storeId)
        ensures UserRating(ratings, user, storeId) == Some(x.score)
      {
        var i :| 0 <= i < |ratings| && ratings[i] == x;
        ScoreOfRow(ratings, i);
      }
    }
  }

  function Annotate(s: Store, ratings: seq<Rating>, user: Option<Auth.Claim>): StoreView
  {
    StoreView(s, AverageHundredths(ratings, s.id), UserRating(ratings, user, s.id))
  }

  // ---------------------------------------------------------------------------
  // The route

  /** A page cut from an ordered list is itself in order. */
  lemma WindowInOrder(sorted: seq<Store>, skip: nat, take: int, field: SortField, dir: Direction)
    requires forall i :: 0 < i < |sorted| ==> Before(field, dir, sorted[i - 1], sorted[i])
    ensures var page := Window(sorted, skip, take);
      forall i :: 0 < i < |page| ==> Before(field, dir, page[i - 1], page[i])
  {
    var page := Window(sorted, skip, take);
    forall i | 0 < i < |page|
      ensures Before(field, dir, page[i - 1], page[i])
    {
      var lo := if take >= 0 then skip else |sorted| - skip - |page|;
      assert page[i - 1] == sorted[lo + i - 1] && page[i] == sorted[lo + i];
    }
  }

  /** The page size and offset a query asks for. */
  function QueryTake(q: ListQuery): int
  {
    PageSize(q.limit.GetOr(20))
  }

  function QuerySkip(q: ListQuery): int
  {
    Offset(q.page.GetOr(1), QueryTake(q))
  }

  /** The database accepts the query: a known column and direction, and a non-negative offset. */
  predicate Accepted(q: ListQuery)
  {
    ParseSort(q.sort.GetOr("name")).Some? && ParseOrder(q.order.GetOr("asc")).Some? && QuerySkip(q) >= 0
  }

  /** All matching stores in the order the query asks for. */
  function Ordered(stores: seq<Store>, q: ListQuery): (r: seq<Store>)
    requires Accepted(q)
    ensures multiset(r) == multiset(FilterStores(stores, q.search.GetOr("")))
  {
    SortedMatches(stores, q.search.GetOr(""), ParseSort(q.sort.GetOr("name")).value, ParseOrder(q.order.GetOr("asc")).value)
  }

  lemma OrderedMembers(stores: seq<Store>, q: ListQuery)
    requires Accepted(q)
    ensures forall x :: x in Ordered(stores, q) ==> x in stores && Matches(x, q.search.GetOr(""))
  {
    var sorted := Ordered(stores, q);
    assert forall x :: x in sorted ==> x in multiset(FilterStores(stores, q.search.GetOr("")));
  }

  /**
   * The stores `findMany({ where, skip, take, orderBy })` returns, or `None` when the database
   * refuses the query: an unknown column or direction, or a negative offset.
   */
  function PageOf(stores: seq<Store>, q: ListQuery): (r: Option<seq<Store>>)
    ensures r.None? <==> !Accepted(q)
    ensures r.Some? ==> forall x :: x in r.value ==> x in stores && Matches(x, q.search.GetOr(""))
    ensures r.Some? && q.limit.GetOr(20) >= 0 ==> |r.value| <= 100
    ensures r.Some? ==> forall i :: 0 < i < |r.value| ==>
              Before(ParseSort(q.sort.GetOr("name")).value, ParseOrder(q.order.GetOr("asc")).value, r.value[i - 1], r.value[i])
    ensures r.Some? ==> r.value == Window(Ordered(stores, q), QuerySkip(q), QueryTake(q))
  {
    if !Accepted(q) then None
    else
      var field := ParseSort(q.sort.GetOr("name")).value;
      var dir := ParseOrder(q.order.GetOr("asc")).value;
      var sorted := Ordered(stores, q);
      var page := Window(sorted, QuerySkip(q), QueryTake(q));
      WindowInOrder(sorted, QuerySkip(q), QueryTake(q), field, dir);
      OrderedMembers(stores, q);
      Some(page)
  }

  /** A negative `limit` is not clamped: a limit of -101 over 101 matching stores returns all 101 of them. */
  lemma NegativeLimitExceedsHundred(stores: seq<Store>)
    requires |stores| == 101
    ensures PageOf(stores, ListQuery(None, Some(1), Some(-101), None, None)).Some?
    ensures |PageOf(stores, ListQuery(None, Some(1), Some(-101), None, None)).value| == 101
  {
    EmptySearchKeepsAll(stores);
    var sorted := SortedMatches(stores, "", ByName, Asc);
    assert |sorted| == |multiset(sorted)| == |multiset(stores)| == 101;
  }

  /** The handler of `GET /stores`; a query the database refuses answers 500. */
  function ListStores(stores: seq<Store>, ratings: seq<Rating>, q: ListQuery, user: Option<Auth.Claim>): Reply<seq<StoreView>>
  {
    match PageOf(stores, q)
    case None => Fail(500, ServerError)
    case Some(page) => Ok(seq(|page|, i requires 0 <= i < |page| => Annotate(page[i], ratings, user)))
  }

  /**
   * What a listing holds: it fails with 500 exactly when the database refuses the query; otherwise
   * it holds the stores of that page, in order, at most 100 of them for a non-negative limit, each
   * a matching store carrying its own average and the requester's own score, and a listing without
   * a requester carries no `userRating` at all.
   */
  lemma ListStoresSpec(stores: seq<Store>, ratings: seq<Rating>, q: ListQuery, user: Option<Auth.Claim>)
    ensures var r := ListStores(stores, ratings, q, user);
      && (r.Fail? <==> PageOf(stores, q).None?)
      && (r.Fail? ==> r == Fail(500, ServerError))
      && (r.Ok? ==> |r.body| == |PageOf(stores, q).value|)
      && (r.Ok? && q.limit.GetOr(20) >= 0 ==> |r.body| <= 100)
      && (r.Ok? ==> forall i :: 0 <= i < |r.body| ==>
            && r.body[i].store == PageOf(stores, q).value[i]
            && r.body[i].store in stores && Matches(r.body[i].store, q.search.GetOr(""))
            && r.body[i].avgRating == AverageHundredths(ratings, r.body[i].store.id)
            && r.body[i].userRating == UserRating(ratings, user, r.body[i].store.id)
            && (user.None? ==> r.body[i].userRating.None?))
  {
    var r := ListStores(stores, ratings, q, user);
    if r.Ok? {
      var page := PageOf(stores, q).value;
      assert forall i :: 0 <= i < |page| ==> page[i] in page;
    }
  }
}
