/**
 * The two routes of backend/src/routes/stores.js that write: `POST /stores` (create a store) and
 * `POST /stores/:id/rate` (upsert a rating), on a repository holding the user, store and rating tables.
 */
module StoreService {
  import opened Wrappers
  import opened Auth
  import opened Tables
  import opened Ratings

  const NameLengthError := "Name must be 20-60 chars"
  const AddressError := "Address required and <=400 chars"
  const ScoreError := "Score must be 1..5"

  /** The reply of the rate route: the upserted row and the store's recomputed average. */
  datatype RateResult = RateResult(rating: Rating, avgRating: Option<int>)

  /** `!name || name.length < 20 || name.length > 60` is false. */
  predicate StoreNameOk(name: Option<string>)
  {
    name.Some? && name.value != "" && 20 <= |name.value| <= 60
  }

  /** `!address || address.length > 400` is false: an address is required and at most 400 characters. */
  predicate StoreAddressOk(address: Option<string>)
  {
    address.Some? && address.value != "" && |address.value| <= 400
  }

  /** `ownerId || null`: an absent owner, and also owner id 0, is stored as `null`. */
  function OwnerOrNull(ownerId: Option<int>): (r: Option<int>)
    ensures r.Some? <==> ownerId.Some? && ownerId.value != 0
    ensures r.Some? ==> r == ownerId
  {
    if ownerId.Some? && ownerId.value != 0 then ownerId else None
  }

  /** Store names are unique in the table (`store.upsert` in the seed script is keyed by name). */
  ghost predicate UniqueNames(stores: seq<Store>)
  {
    forall i, j :: 0 <= i < j < |stores| ==> stores[i].name != stores[j].name
  }

  predicate NameTaken(stores: seq<Store>, name: string)
  {
    exists i :: 0 <= i < |stores| && stores[i].name == name
  }

  class Repository {
    var users: seq<User>
    var stores: seq<Store>
    var ratings: seq<Rating>
    /** The next value of the store table's autoincrement id. */
    var nextStoreId: int

    /** The table constraints: primary and unique keys, and scores within 1..5. */
    ghost predicate Valid()
      reads this
    {
      && UniqueStoreIds(stores)
      && UniqueNames(stores)
      && (forall s :: s in stores ==> s.id < nextStoreId)
      && UniqueKeys(ratings)
      && ValidScores(ratings)
    }

    constructor (users: seq<User>)
      ensures Valid()
      ensures this.users == users && stores == [] && ratings == [] && nextStoreId == 1
    {
      this.users := users;
      stores := [];
      ratings := [];
      nextStoreId := 1;
    }

    /**
     * `POST /stores` after the ADMIN gate: the name and then the address are validated before any
     * write; a valid store gets a fresh id and is appended; a name already in use is refused by the
     * table's unique key (500) and nothing is written.
     */
    method CreateStore(name: Option<string>, email: Option<string>, address: Option<string>, ownerId: Option<int>)
      returns (r: Reply<Store>)
      requires Valid()
      modifies this`stores, this`nextStoreId
      ensures Valid()
      ensures r == Fail(400, NameLengthError) <==> !StoreNameOk(name)
      ensures r == Fail(400, AddressError) <==> StoreNameOk(name) && !StoreAddressOk(address)
      ensures r == Fail(500, ServerError) <==>
                StoreNameOk(name) && StoreAddressOk(address) && NameTaken(old(stores), name.value)
      ensures StoreNameOk(name) && StoreAddressOk(address) && !NameTaken(old(stores), name.value) ==> r.Ok?
      ensures r.Fail? ==> stores == old(stores)
      ensures r.Ok? ==>
                && r.body == Store(old(nextStoreId), name.value, email, address.value, OwnerOrNull(ownerId))
                && (forall s :: s in old(stores) ==> s.id != r.body.id)
                && stores == old(stores) + [r.body]
    {
      if name.None? || name.value == "" || |name.value| < 20 || |name.value| > 60 {
        return Fail(400, NameLengthError);
      }
      if address.None? || address.value == "" || |address.value| > 400 {
        return Fail(400, AddressError);
      }
      var i := 0;
      while i < |stores|
        invariant 0 <= i <= |stores|
        invariant forall k :: 0 <= k < i ==> stores[k].name != name.value
      {
        if stores[i].name == name.value {
          return Fail(500, ServerError);
        }
        i := i + 1;
      }
      var store := Store(nextStoreId, name.value, email, address.value, OwnerOrNull(ownerId));
      stores := stores + [store];
      nextStoreId := nextStoreId + 1;
      r := Ok(store);
    }

    /**
     * `POST /stores/:id/rate` for the authenticated `user`: a score outside 1..5 is refused (400)
     * before the store is looked up, a missing store is refused (404), and in both cases the rating
     * table is unchanged; otherwise the user's row for the store is updated in place, or a row
     * stamped `now` is appended, and the reply carries that row and the average of the new table.
     */
    method Rate(user: Claim, storeId: int, score: int, now: int) returns (r: Reply<RateResult>)
      requires Valid()
      modifies this`ratings
      ensures Valid()
      ensures !(1 <= score <= 5) ==> r == Fail(400, ScoreError) && ratings == old(ratings)
      ensures 1 <= score <= 5 && FindStore(stores, storeId).None? ==>
                r == Fail(404, StoreNotFound) && ratings == old(ratings)
      ensures 1 <= score <= 5 && FindStore(stores, storeId).Some? ==>
                && ratings == Upsert(old(ratings), user.id, storeId, score, now)
                && r.Ok? && r.body.rating in ratings
                && HasKey(r.body.rating, user.id, storeId) && r.body.rating.score == score
                && r.body.avgRating == AverageHundredths(ratings, storeId)
    {
      if !(score in [1, 2, 3, 4, 5]) {
        return Fail(400, ScoreError);
      }
      if FindStore(stores, storeId).None? {
        return Fail(404, StoreNotFound);
      }
      ghost var before := ratings;
      var i := 0;
      while i < |ratings| && !HasKey(ratings[i], user.id, storeId)
        invariant 0 <= i <= |ratings|
        invariant forall k :: 0 <= k < i ==> !HasKey(ratings[k], user.id, storeId)
      {
        i := i + 1;
      }
      var row;
      if i < |ratings| {
        assert FindRating(before, user.id, storeId) == Some(i);
        row := ratings[i].(score := score);
        ratings := ratings[i := row];
        assert ratings[i] == row;
      } else {
        assert FindRating(before, user.id, storeId) == None;
        row := Rating(user.id, storeId, score, now);
        ratings := ratings + [row];
        assert ratings[|before|] == row;
      }
      UpsertKeepsUnique(before, user.id, storeId, score, now);
      UpsertKeepsScoresValid(before, user.id, storeId, score, now);
      r := Ok(RateResult(row, AverageHundredths(ratings, storeId)));
    }
  }

  /**
   * The walk-through of the rating route: users 1 and 2 rate store 7 with 5 and 3 (average 4.00);
   * user 1 then resubmits 1, which leaves two rows and an average of 2.00.
   */
  lemma ResubmissionScenario()
    ensures var t1 := Upsert([], 1, 7, 5, 100);
            var t2 := Upsert(t1, 2, 7, 3, 101);
            var t3 := Upsert(t2, 1, 7, 1, 102);
            && AverageHundredths(t2, 7) == Some(400)
            && |t3| == 2 && ScoreOf(t3, 1, 7) == Some(1) && ScoreOf(t3, 2, 7) == Some(3)
            && AverageHundredths(t3, 7) == Some(200)
  {
    var t1 := Upsert([], 1, 7, 5, 100);
    assert t1 == [Rating(1, 7, 5, 100)];
    var t2 := Upsert(t1, 2, 7, 3, 101);
    assert t2 == [Rating(1, 7, 5, 100), Rating(2, 7, 3, 101)];
    RatingsOfOneStore(t2, 7);
    var t3 := Upsert(t2, 1, 7, 1, 102);
    assert t3 == [Rating(1, 7, 1, 100), Rating(2, 7, 3, 101)];
    RatingsOfOneStore(t3, 7);
  }
}
