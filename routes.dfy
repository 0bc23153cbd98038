/**
 * The middleware chains of backend/src/routes/stores.js: every route first runs `authMiddleware`;
 * the create, owner and dashboard routes then run `requireRole`; only then does the handler run.
 * A caller the chain stops gets its 401 or 403 and no data, and nothing is written.
 */
module Routes {
  import opened Wrappers
  import opened Auth
  import opened Tables
  import opened Ratings
  import opened Listing
  import opened Queries
  import opened StoreService

  /** `GET /stores` behind `authMiddleware`. */
  method GetStores(repo: Repository, req: Request, verify: string -> Option<Claim>, q: ListQuery)
    returns (r: Reply<seq<StoreView>>)
    modifies req`user
    ensures var a := Authenticate(req.authorization, verify);
      && (a.Rejected? ==> r == Fail(401, a.message) && req.user == old(req.user))
      && (a.Authenticated? ==> req.user == Some(a.claim)
                               && r == ListStores(repo.stores, repo.ratings, q, Some(a.claim)))
  {
    var a := AuthMiddleware(req, verify);
    if a.Rejected? {
      return Fail(a.status, a.message);
    }
    r := ListStores(repo.stores, repo.ratings, q, req.user);
  }

  /** `POST /stores` behind `authMiddleware` and `requireRole('ADMIN')`. */
  method PostStore(repo: Repository, req: Request, verify: string -> Option<Claim>,
                   name: Option<string>, email: Option<string>, address: Option<string>, ownerId: Option<int>)
    returns (r: Reply<Store>)
    requires repo.Valid()
    modifies req`user, repo`stores, repo`nextStoreId
    ensures repo.Valid()
    ensures var a := Authenticate(req.authorization, verify);
      && (a.Rejected? ==> r == Fail(401, a.message) && req.user == old(req.user) && repo.stores == old(repo.stores))
      && (a.Authenticated? && a.claim.role != ADMIN ==> r == Fail(403, Forbidden) && repo.stores == old(repo.stores))
      && (a.Authenticated? ==> req.user == Some(a.claim))
    ensures var a := Authenticate(req.authorization, verify);
      a.Authenticated? && a.claim.role == ADMIN ==>
        && (r == Fail(400, NameLengthError) <==> !StoreNameOk(name))
        && (r == Fail(400, AddressError) <==> StoreNameOk(name) && !StoreAddressOk(address))
        && (r == Fail(500, ServerError) <==>
              StoreNameOk(name) && StoreAddressOk(address) && NameTaken(old(repo.stores), name.value))
        && (StoreNameOk(name) && StoreAddressOk(address) && !NameTaken(old(repo.stores), name.value) ==>
              && r.Ok?
              && r.body == Store(old(repo.nextStoreId), name.value, email, address.value, OwnerOrNull(ownerId))
              && repo.stores == old(repo.stores) + [r.body])
    ensures r.Ok? ==> && Authenticate(req.authorization, verify).Authenticated?
                      && Authenticate(req.authorization, verify).claim.role == ADMIN
                      && StoreNameOk(name) && StoreAddressOk(address)
                      && repo.stores == old(repo.stores) + [r.body]
    ensures r.Fail? ==> repo.stores == old(repo.stores)
  {
    var a := AuthMiddleware(req, verify);
    if a.Rejected? {
      return Fail(a.status, a.message);
    }
    var gate := RequireRole(req.user, [ADMIN]);
    if gate.Deny? {
      return Fail(gate.status, gate.message);
    }
    r := repo.CreateStore(name, email, address, ownerId);
  }

  /** `POST /stores/:id/rate` behind `authMiddleware`: any authenticated role may rate. */
  method PostRating(repo: Repository, req: Request, verify: string -> Option<Claim>, storeId: int, score: int, now: int)
    returns (r: Reply<RateResult>)
    requires repo.Valid()
    modifies req`user, repo`ratings
    ensures repo.Valid()
    ensures var a := Authenticate(req.authorization, verify);
      && (a.Rejected? ==> r == Fail(401, a.message) && req.user == old(req.user) && repo.ratings == old(repo.ratings))
      && (a.Authenticated? ==> req.user == Some(a.claim))
      && (a.Authenticated? && !(1 <= score <= 5) ==> r == Fail(400, ScoreError))
      && (a.Authenticated? && 1 <= score <= 5 && FindStore(repo.stores, storeId).None? ==>
            r == Fail(404, StoreNotFound))
      && (a.Authenticated? && 1 <= score <= 5 && FindStore(repo.stores, storeId).Some? ==>
            && repo.ratings == Upsert(old(repo.ratings), a.claim.id, storeId, score, now)
            && r.Ok? && r.body.rating in repo.ratings
            && HasKey(r.body.rating, a.claim.id, storeId) && r.body.rating.score == score
            && r.body.avgRating == AverageHundredths(repo.ratings, storeId))
    ensures r.Fail? ==> repo.ratings == old(repo.ratings)
  {
    var a := AuthMiddleware(req, verify);
    if a.Rejected? {
      return Fail(a.status, a.message);
    }
    r := repo.Rate(a.claim, storeId, score, now);
  }

  /** `GET /stores/:id/raters` behind `authMiddleware`; the handler does its own ownership check. */
  method GetRaters(repo: Repository, req: Request, verify: string -> Option<Claim>, storeId: int)
    returns (r: Reply<RatersReply>)
    modifies req`user
    ensures var a := Authenticate(req.authorization, verify);
      && (a.Rejected? ==> r == Fail(401, a.message) && req.user == old(req.user))
      && (a.Authenticated? ==> req.user == Some(a.claim)
                               && r == Raters(repo.stores, repo.ratings, repo.users, a.claim, storeId))
  {
    var a := AuthMiddleware(req, verify);
    if a.Rejected? {
      return Fail(a.status, a.message);
    }
    r := Raters(repo.stores, repo.ratings, repo.users, a.claim, storeId);
  }

  /** `GET /stores/owner/my` behind `authMiddleware` and `requireRole('STORE_OWNER')`. */
  method GetOwnStores(repo: Repository, req: Request, verify: string -> Option<Claim>)
    returns (r: Reply<seq<OwnedStore>>)
    modifies req`user
    ensures var a := Authenticate(req.authorization, verify);
      && (a.Rejected? ==> r == Fail(401, a.message) && req.user == old(req.user))
      && (a.Authenticated? && a.claim.role != STORE_OWNER ==> r == Fail(403, Forbidden))
      && (a.Authenticated? && a.claim.role == STORE_OWNER ==>
            r == Ok(OwnerStores(repo.stores, repo.ratings, repo.users, a.claim)))
  {
    var a := AuthMiddleware(req, verify);
    if a.Rejected? {
      return Fail(a.status, a.message);
    }
    var gate := RequireRole(req.user, [STORE_OWNER]);
    if gate.Deny? {
      return Fail(gate.status, gate.message);
    }
    r := Ok(OwnerStores(repo.stores, repo.ratings, repo.users, a.claim));
  }

  /** `GET /stores/admin/dashboard` behind `authMiddleware` and `requireRole('ADMIN')`: the three table sizes. */
  method GetDashboard(repo: Repository, req: Request, verify: string -> Option<Claim>)
    returns (r: Reply<Counts>)
    modifies req`user
    ensures var a := Authenticate(req.authorization, verify);
      && (a.Rejected? ==> r == Fail(401, a.message) && req.user == old(req.user))
      && (a.Authenticated? && a.claim.role != ADMIN ==> r == Fail(403, Forbidden))
      && (a.Authenticated? && a.claim.role == ADMIN ==>
            r == Ok(Counts(|repo.users|, |repo.stores|, |repo.ratings|)))
  {
    var a := AuthMiddleware(req, verify);
    if a.Rejected? {
      return Fail(a.status, a.message);
    }
    var gate := RequireRole(req.user, [ADMIN]);
    if gate.Deny? {
      return Fail(gate.status, gate.message);
    }
    r := Ok(Dashboard(repo.users, repo.stores, repo.ratings));
  }
}
