/**
 * The read-only routes of backend/src/routes/stores.js after authentication: who rated a store
 * (`GET /:id/raters`), the owner's own stores (`GET /owner/my`) and the admin counts
 * (`GET /admin/dashboard`).
 */
module Queries {
  import opened Wrappers
  import opened Auth
  import opened Tables
  import opened Ratings

  /** The author columns a relation `include` selects; the owner view leaves out the email. */
  datatype Author = Author(id: int, name: string, email: Option<string>)

  /** A rating with its author joined (absent if no user row has the rating's `userId`). */
  datatype RaterRow = RaterRow(rating: Rating, user: Option<Author>)

  datatype RatersReply = RatersReply(avgRating: Option<int>, ratings: seq<RaterRow>)

  datatype OwnedStore = OwnedStore(store: Store, avgRating: Option<int>, ratings: seq<RaterRow>)

  datatype Counts = Counts(users: nat, stores: nat, ratings: nat)

  /** The ownership gate of the raters route: an ADMIN, or the user the store names as owner. */
  predicate MayViewRaters(user: Claim, store: Store)
  {
    user.role == ADMIN || store.ownerId == Some(user.id)
  }

  function AuthorOf(users: seq<User>, userId: int, withEmail: bool): Option<Author>
  {
    match FindUser(users, userId)
    case None => None
    case Some(u) => Some(Author(u.id, u.name, if withEmail then Some(u.email) else None))
  }

  function WithAuthors(rows: seq<Rating>, users: seq<User>, withEmail: bool): (r: seq<RaterRow>)
    ensures |r| == |rows|
    ensures forall i :: 0 <= i < |r| ==> r[i].rating == rows[i]
  {
    seq(|rows|, i requires 0 <= i < |rows| => RaterRow(rows[i], AuthorOf(users, rows[i].userId, withEmail)))
  }

  function RatingsIn(rows: seq<RaterRow>): seq<Rating>
  {
    seq(|rows|, i requires 0 <= i < |rows| => rows[i].rating)
  }

  /** The handler of `GET /stores/:id/raters`. */
  function Raters(stores: seq<Store>, ratings: seq<Rating>, users: seq<User>, user: Claim, storeId: int): Reply<RatersReply>
  {
    match FindStore(stores, storeId)
    case None => Fail(404, StoreNotFound)
    case Some(store) =>
      if !MayViewRaters(user, store) then Fail(403, Forbidden)
      else Ok(RatersReply(AverageHundredths(ratings, storeId), WithAuthors(NewestFirst(ratings, storeId), users, true)))
  }

  /**
   * The raters route checks existence first (404), then ownership (403): only an ADMIN or the
   * store's owner gets an answer, and that answer holds exactly the store's ratings, newest first,
   * each with its author's id, name and email, and the store's current average.
   */
  lemma RatersSpec(stores: seq<Store>, ratings: seq<Rating>, users: seq<User>, user: Claim, storeId: int)
    requires UniqueStoreIds(stores)
    ensures var r := Raters(stores, ratings, users, user, storeId);
      && (r == Fail(404, StoreNotFound) <==> forall s :: s in stores ==> s.id != storeId)
      && (r == Fail(403, Forbidden) <==>
            exists s :: s in stores && s.id == storeId && user.role != ADMIN && s.ownerId != Some(user.id))
      && (r.Ok? <==> exists s :: s in stores && s.id == storeId && MayViewRaters(user, s))
      && (r.Ok? ==>
            && r.body.avgRating == AverageHundredths(ratings, storeId)
            && multiset(RatingsIn(r.body.ratings)) == multiset(RatingsOf(ratings, storeId))
            && (forall i, j :: 0 <= i < j < |r.body.ratings| ==>
                  r.body.ratings[i].rating.createdAt >= r.body.ratings[j].rating.createdAt)
            && (forall row :: row in r.body.ratings ==>
                  row.user == AuthorOf(users, row.rating.userId, true)))
  {
    var r := Raters(stores, ratings, users, user, storeId);
    var found := FindStore(stores, storeId);
    if found.Some? {
      forall s | s in stores && s.id == storeId
        ensures s == found.value
      {
        var i :| 0 <= i < |stores| && stores[i] == s;
        var j :| 0 <= j < |stores| && stores[j] == found.value;
        assert i == j;
      }
    }
    if r.Ok? {
      assert RatingsIn(r.body.ratings) == NewestFirst(ratings, storeId);
    }
  }

  /** `findMany({ where: { ownerId } })`: the stores that name `ownerId` as their owner, in table order. */
  function OwnedBy(stores: seq<Store>, ownerId: int): (r: seq<Store>)
    ensures forall s :: s in r <==> s in stores && s.ownerId == Some(ownerId)
    ensures forall s :: multiset(r)[s] == if s.ownerId == Some(ownerId) then multiset(stores)[s] else 0
    ensures |r| <= |stores|
  {
    if stores == [] then []
    else
      assert stores == [stores[0]] + stores[1..];
      (if stores[0].ownerId == Some(ownerId) then [stores[0]] else []) + OwnedBy(stores[1..], ownerId)
  }

  /** The handler of `GET /stores/owner/my` (after the STORE_OWNER gate). */
  function OwnerStores(stores: seq<Store>, ratings: seq<Rating>, users: seq<User>, user: Claim): seq<OwnedStore>
  {
    var owned := OwnedBy(stores, user.id);
    seq(|owned|, i requires 0 <= i < |owned| =>
      OwnedStore(owned[i], AverageHundredths(ratings, owned[i].id), WithAuthors(RatingsOf(ratings, owned[i].id), users, false)))
  }

  /**
   * The owner view lists exactly the stores whose owner is the requester, each with all of its
   * ratings (authors' id and name only) and its average.
   */
  lemma OwnerStoresSpec(stores: seq<Store>, ratings: seq<Rating>, users: seq<User>, user: Claim)
    ensures var r := OwnerStores(stores, ratings, users, user);
      && (forall s :: (exists i :: 0 <= i < |r| && r[i].store == s) <==> s in stores && s.ownerId == Some(user.id))
      && |r| == |OwnedBy(stores, user.id)|
      && (forall i :: 0 <= i < |r| ==> r[i].store == OwnedBy(stores, user.id)[i])
      && (forall e :: e in r ==>
            && e.avgRating == AverageHundredths(ratings, e.store.id)
            && RatingsIn(e.ratings) == RatingsOf(ratings, e.store.id)
            && forall row :: row in e.ratings ==> row.user == AuthorOf(users, row.rating.userId, false))
  {
    OwnerStoresRows(stores, ratings, users, user);
    OwnerStoresEntries(stores, ratings, users, user);
  }

  /** Row i of the owner view is row i of `OwnedBy`, so each owned store is listed once, in table order. */
  lemma OwnerStoresRows(stores: seq<Store>, ratings: seq<Rating>, users: seq<User>, user: Claim)
    ensures var r := OwnerStores(stores, ratings, users, user);
      && (forall s :: (exists i :: 0 <= i < |r| && r[i].store == s) <==> s in stores && s.ownerId == Some(user.id))
      && |r| == |OwnedBy(stores, user.id)|
      && (forall i :: 0 <= i < |r| ==> r[i].store == OwnedBy(stores, user.id)[i])
  {
    var r := OwnerStores(stores, ratings, users, user);
    var owned := OwnedBy(stores, user.id);
    forall s | s in stores && s.ownerId == Some(user.id)
      ensures exists i :: 0 <= i < |r| && r[i].store == s
    {
      var i :| 0 <= i < |owned| && owned[i] == s;
      assert r[i].store == s;
    }
  }

  /** Each entry of the owner view carries its store's ratings, authors and average. */
  lemma OwnerStoresEntries(stores: seq<Store>, ratings: seq<Rating>, users: seq<User>, user: Claim)
    ensures var r := OwnerStores(stores, ratings, users, user);
      forall e :: e in r ==>
        && e.avgRating == AverageHundredths(ratings, e.store.id)
        && RatingsIn(e.ratings) == RatingsOf(ratings, e.store.id)
        && forall row :: row in e.ratings ==> row.user == AuthorOf(users, row.rating.userId, false)
  {
    var r := OwnerStores(stores, ratings, users, user);
    var owned := OwnedBy(stores, user.id);
    forall e | e in r
      ensures RatingsIn(e.ratings) == RatingsOf(ratings, e.store.id)
    {
      var i :| 0 <= i < |r| && r[i] == e;
      assert RatingsIn(e.ratings) == RatingsOf(ratings, owned[i].id);
    }
  }

  /** The handler of `GET /stores/admin/dashboard` (after the ADMIN gate): the three table sizes. */
  function Dashboard(users: seq<User>, stores: seq<Store>, ratings: seq<Rating>): Counts
  {
    Counts(|users|, |stores|, |ratings|)
  }
}
